/** The per-session state machine over any family of backends: validate, route, number the reply. */
module Sessions {
  import opened Prelude
  import opened Wire
  import opened Protocol
  import opened Backends

  type BackendFn<!S> = (S, u32, u32, seq<byte>) -> StepResult<S>

  type Outcome = Result<seq<byte>, ProtocolError>

  datatype Session<S> = Session(id: u64, maxFrameBody: u32, handshook: bool, nextSeq: u64, backends: map<u8, S>)

  function New<S>(id: u64): Session<S> {
    Session(id, DEFAULT_MAX_FRAME_BODY, false, 1, map[])
  }

  function ReplyFrame(opcode: u32, reqId: u32, seqNo: u64, body: seq<byte>): seq<byte> {
    EncodeFrame(FrameHeader(PROTOCOL_MAJOR, 0, Response, opcode, reqId, seqNo, Truncate32(|body|)), body)
  }

  /** Frames a reply under the next sequence number. */
  function Reply<S>(s: Session<S>, opcode: u32, reqId: u32, body: seq<byte>): StepResult<Session<S>> {
    StepResult(s.(nextSeq := WrappingNext64(s.nextSeq)), Ok(ReplyFrame(opcode, reqId, s.nextSeq, body)))
  }

  function Greet<S>(s: Session<S>, reqId: u32, body: seq<byte>): StepResult<Session<S>> {
    match DecodeHello(body)
    case Err(e) => StepResult(s, Err(e))
    case Ok(hello) =>
      if hello.major != PROTOCOL_MAJOR then StepResult(s, Err(BadVersion(hello.major, hello.minor)))
      else
        var cap := if hello.maxFrameBody <= DEFAULT_MAX_FRAME_BODY then hello.maxFrameBody else DEFAULT_MAX_FRAME_BODY;
        var welcome := Welcome(PROTOCOL_MAJOR, PROTOCOL_MINOR, 0, cap, s.id);
        Reply(s.(maxFrameBody := cap, handshook := true), WELCOME, reqId, EncodeWelcome(welcome))
  }

  function Route<S>(step: BackendFn<S>, s: Session<S>, opcode: u32, reqId: u32, body: seq<byte>): StepResult<Session<S>> {
    var api := OpcodeApi(opcode);
    if api !in s.backends then StepResult(s, Err(UnknownOpcode(opcode)))
    else
      var r := step(s.backends[api], opcode, reqId, body);
      var s' := s.(backends := s.backends[api := r.state]);
      match r.reply
      case Err(e) => StepResult(s', Err(e))
      case Ok(resp) => Reply(s', opcode, reqId, resp)
  }

  function Dispatch<S>(step: BackendFn<S>, s: Session<S>, h: FrameHeader, body: seq<byte>): StepResult<Session<S>> {
    if h.bodyLen > s.maxFrameBody then StepResult(s, Err(FrameTooLarge(h.bodyLen)))
    else if h.bodyLen != |body| then StepResult(s, Err(BodyLenMismatch(h.bodyLen, |body|)))
    else if h.opcode == HELLO then Greet(s, h.reqId, body)
    else if h.opcode == NOOP then Reply(s, NOOP, h.reqId, [])
    else Route(step, s, h.opcode, h.reqId, body)
  }

  /** One call of the session's `handle`. */
  function HandleFrame<S>(step: BackendFn<S>, s: Session<S>, frame: seq<byte>): StepResult<Session<S>> {
    match DecodeFrame(frame)
    case Err(e) => StepResult(s, Err(e))
    case Ok(f) => Dispatch(step, s, f.header, f.body)
  }

  datatype Run<S> = Run(state: Session<S>, outcomes: seq<Outcome>)

  /** Handing a session one frame after the other, whatever each outcome is. */
  function HandleAll<S>(step: BackendFn<S>, s: Session<S>, frames: seq<seq<byte>>): (r: Run<S>)
    ensures |r.outcomes| == |frames|
    decreases |frames|
  {
    if frames == [] then Run(s, [])
    else
      var r := HandleFrame(step, s, frames[0]);
      var rest := HandleAll(step, r.state, frames[1..]);
      Run(rest.state, [r.reply] + rest.outcomes)
  }

  // Failure leaves no trace

  ghost predicate FailsAtomically<S(!new)>(step: BackendFn<S>) {
    forall b, opcode, reqId, body :: step(b, opcode, reqId, body).reply.Err? ==> step(b, opcode, reqId, body).state == b
  }

  /** If the backends fail without a trace, so does the session: state and tables are as before. */
  lemma {:induction false} HandleFailsAtomically<S(!new)>(step: BackendFn<S>, s: Session<S>, frame: seq<byte>)
    requires FailsAtomically(step)
    ensures HandleFrame(step, s, frame).reply.Err? ==> HandleFrame(step, s, frame).state == s
  {
    match DecodeFrame(frame)
    case Err(_) =>
    case Ok(f) =>
      var api := OpcodeApi(f.header.opcode);
      if api in s.backends {
        assert s.backends[api := s.backends[api]] == s.backends;
      }
  }

  /** The Vulkan and video backends do fail without a trace. */
  lemma BackendsFailAtomically()
    ensures FailsAtomically(BackendStep)
  {
    hide VkApply, VideoApply;
  }

  // What is accepted

  /**
   A frame that gets a reply is exactly its header plus the body length it declares, and that is
   within the cap; a longer declaration, or a wrong one, is refused as such before anything is done.
   */
  lemma {:induction false} OnlyHonestFramesAccepted<S>(step: BackendFn<S>, s: Session<S>, frame: seq<byte>)
    requires DecodeFrame(frame).Ok?
    ensures var declared := DecodeFrame(frame).value.header.bodyLen;
            var r := HandleFrame(step, s, frame);
            && (r.reply.Ok? ==> |frame| == HEADER_LEN + declared && declared <= s.maxFrameBody)
            && (declared > s.maxFrameBody ==> r == StepResult(s, Err(FrameTooLarge(declared))))
            && (declared <= s.maxFrameBody && |frame| != HEADER_LEN + declared ==>
                  r == StepResult(s, Err(BodyLenMismatch(declared, |frame| - HEADER_LEN))))
  {
    hide Greet, Route, Reply;
    DecodeFrameAccepts(frame);
  }

  /** A frame that is no frame is refused as the decoder refuses it, and nothing changes. */
  lemma {:induction false} MalformedFrameRejected<S>(step: BackendFn<S>, s: Session<S>, frame: seq<byte>)
    ensures |frame| < HEADER_LEN ==> HandleFrame(step, s, frame) == StepResult(s, Err(UnexpectedEof))
    ensures |frame| >= HEADER_LEN && KindField(frame) > 2 ==>
              HandleFrame(step, s, frame) == StepResult(s, Err(BadKind(KindField(frame))))
  {
    hide Dispatch;
    DecodeFrameAccepts(frame);
  }

  /** An honest frame: it declares the length of its body, and that is within the cap. */
  predicate Honest<S>(s: Session<S>, h: FrameHeader, body: seq<byte>) {
    h.bodyLen == |body| <= s.maxFrameBody
  }

  /** The header of a reply to `h` under number `seqNo`. */
  function ReplyHeader(h: FrameHeader, opcode: u32, seqNo: u64, body: seq<byte>): FrameHeader {
    FrameHeader(PROTOCOL_MAJOR, 0, Response, opcode, h.reqId, seqNo, Truncate32(|body|))
  }

  /**
   What an honest frame of a registered API comes to, whatever its version, flags, kind and number: the
   backend's own error, or the backend's body under the next number; the backend is left as its step
   leaves it.
   */
  lemma {:induction false} RegisteredApiAnswers<S>(step: BackendFn<S>, s: Session<S>, h: FrameHeader, body: seq<byte>)
    requires Honest(s, h, body)
    requires h.opcode != HELLO && h.opcode != NOOP && OpcodeApi(h.opcode) in s.backends
    ensures var api := OpcodeApi(h.opcode);
            var r := step(s.backends[api], h.opcode, h.reqId, body);
            var stepped := s.(backends := s.backends[api := r.state]);
            var out := HandleFrame(step, s, EncodeFrame(h, body));
            && (r.reply.Err? ==> out == StepResult(stepped, Err(r.reply.error)))
            && (r.reply.Ok? ==>
                  && out.state == stepped.(nextSeq := WrappingNext64(s.nextSeq))
                  && out.reply.Ok?
                  && DecodeFrame(out.reply.value) == Ok(Frame(ReplyHeader(h, h.opcode, s.nextSeq, r.reply.value), r.reply.value)))
  {
    hide EncodeFrame, DecodeFrame, OpcodeApi, ReplyFrame;
    FrameRoundTrip(h, body);
    var r := step(s.backends[OpcodeApi(h.opcode)], h.opcode, h.reqId, body);
    if r.reply.Ok? {
      ReplyDecodes(h.opcode, h.reqId, s.nextSeq, r.reply.value);
    }
  }

  /** An honest no-op is answered with an empty body, whatever its own body, handshook or not. */
  lemma {:induction false} NoopAnswered<S>(step: BackendFn<S>, s: Session<S>, h: FrameHeader, body: seq<byte>)
    requires Honest(s, h, body) && h.opcode == NOOP
    ensures var out := HandleFrame(step, s, EncodeFrame(h, body));
            && out.state == s.(nextSeq := WrappingNext64(s.nextSeq))
            && out.reply.Ok?
            && DecodeFrame(out.reply.value) == Ok(Frame(ReplyHeader(h, NOOP, s.nextSeq, []), []))
  {
    hide EncodeFrame, DecodeFrame, ReplyFrame;
    FrameRoundTrip(h, body);
    ReplyDecodes(NOOP, h.reqId, s.nextSeq, []);
  }

  /**
   An honest HELLO on any session, greeted before or not: a short body and a foreign major version are
   refused as such with nothing changed; otherwise the smaller of the client's cap and 1 MiB is in
   force at once and told to the client in a WELCOME with the session's id.
   */
  lemma {:induction false} HelloAnswered<S>(step: BackendFn<S>, s: Session<S>, h: FrameHeader, body: seq<byte>)
    requires Honest(s, h, body) && h.opcode == HELLO
    ensures var out := HandleFrame(step, s, EncodeFrame(h, body));
            if |body| < 12 then out == StepResult(s, Err(UnexpectedEof))
            else
              DecodeHello(body).Ok? &&
              var hello := DecodeHello(body).value;
              var cap := Min(hello.maxFrameBody, DEFAULT_MAX_FRAME_BODY);
              var welcome := EncodeWelcome(Welcome(PROTOCOL_MAJOR, PROTOCOL_MINOR, 0, cap, s.id));
              if hello.major != PROTOCOL_MAJOR then out == StepResult(s, Err(BadVersion(hello.major, hello.minor)))
              else
                && out.state == s.(maxFrameBody := cap, handshook := true, nextSeq := WrappingNext64(s.nextSeq))
                && out.reply.Ok?
                && DecodeFrame(out.reply.value) == Ok(Frame(ReplyHeader(h, WELCOME, s.nextSeq, welcome), welcome))
  {
    hide EncodeFrame, DecodeFrame, ReplyFrame, EncodeWelcome;
    FrameRoundTrip(h, body);
    HandshakeRoundTrip(Hello(0, 0, 0, 0), Welcome(0, 0, 0, 0, 0), body);
    if |body| >= 12 {
      var cap := Min(DecodeHello(body).value.maxFrameBody, DEFAULT_MAX_FRAME_BODY);
      ReplyDecodes(WELCOME, h.reqId, s.nextSeq, EncodeWelcome(Welcome(PROTOCOL_MAJOR, PROTOCOL_MINOR, 0, cap, s.id)));
    }
  }

  /** An honest frame for an API nobody registered is an unknown opcode, and nothing changes. */
  lemma {:induction false} UnregisteredApiRejected<S>(step: BackendFn<S>, s: Session<S>, h: FrameHeader, body: seq<byte>)
    requires h.bodyLen == |body| <= s.maxFrameBody
    requires h.opcode != HELLO && h.opcode != NOOP && OpcodeApi(h.opcode) !in s.backends
    ensures HandleFrame(step, s, EncodeFrame(h, body)) == StepResult(s, Err(UnknownOpcode(h.opcode)))
  {
    hide EncodeFrame, DecodeFrame, OpcodeApi;
    FrameRoundTrip(h, body);
  }

  /** A HELLO is accepted exactly from 12 bytes on and for major version 0. */
  lemma {:induction false} HelloAccepted<S>(s: Session<S>, reqId: u32, body: seq<byte>)
    ensures Greet(s, reqId, body).reply.Ok? <==> |body| >= 12 && body[..2] == [0, 0]
    ensures Greet(s, reqId, body).reply.Err? ==> Greet(s, reqId, body).state == s
  {
    hide ReplyFrame, EncodeWelcome;
    HandshakeRoundTrip(Hello(0, 0, 0, 0), Welcome(0, 0, 0, 0, 0), body);
    if |body| >= 12 {
      FieldAt(HELLO_WIDTHS, body, 0);
      assert HELLO_WIDTHS[..0] == [];
      WordIsZero(body[..2]);
    }
  }

  lemma WordIsZero(bs: seq<byte>)
    requires |bs| == 2
    ensures FromLittleEndian(bs) == 0 <==> bs == [0, 0]
  {
    ZeroWord();
    LittleEndianReencode(bs);
    LittleEndianRoundTrip(2, 0);
  }

  /**
   What a HELLO negotiates: the smaller of the client's cap and 1 MiB, in force from then on, and a
   WELCOME that tells the client that cap and the session's id.
   */
  lemma {:induction false} HelloNegotiates<S>(s: Session<S>, reqId: u32, hello: Hello, rest: seq<byte>)
    requires hello.major == PROTOCOL_MAJOR
    ensures var r := Greet(s, reqId, EncodeHello(hello) + rest);
            var cap := Min(hello.maxFrameBody, DEFAULT_MAX_FRAME_BODY);
            && r.state == s.(maxFrameBody := cap, handshook := true, nextSeq := WrappingNext64(s.nextSeq))
            && r.reply.Ok? && DecodeFrame(r.reply.value).Ok?
            && DecodeWelcome(DecodeFrame(r.reply.value).value.body) ==
               Ok(Welcome(PROTOCOL_MAJOR, PROTOCOL_MINOR, 0, cap, s.id))
  {
    hide DecodeFrame, EncodeWelcome, DecodeWelcome, EncodeHello, DecodeHello, ReplyFrame;
    var cap := Min(hello.maxFrameBody, DEFAULT_MAX_FRAME_BODY);
    var welcome := Welcome(PROTOCOL_MAJOR, PROTOCOL_MINOR, 0, cap, s.id);
    HandshakeRoundTrip(hello, welcome, rest);
    HandshakeRoundTrip(hello, welcome, []);
    assert EncodeWelcome(welcome) + [] == EncodeWelcome(welcome);
    ReplyDecodes(WELCOME, reqId, s.nextSeq, EncodeWelcome(welcome));
  }

  // The negotiated cap

  /** The cap never exceeds 1 MiB, and below the 12 bytes of a HELLO body it cannot change any more. */
  lemma {:induction false} CapStep<S>(step: BackendFn<S>, s: Session<S>, frame: seq<byte>)
    requires s.maxFrameBody <= DEFAULT_MAX_FRAME_BODY
    ensures var s' := HandleFrame(step, s, frame).state;
            s'.maxFrameBody <= DEFAULT_MAX_FRAME_BODY &&
            (s.maxFrameBody < 12 ==> s'.maxFrameBody == s.maxFrameBody)
  {
    match DecodeFrame(frame)
    case Err(_) =>
    case Ok(f) =>
      HandshakeRoundTrip(Hello(0, 0, 0, 0), Welcome(0, 0, 0, 0, 0), f.body);
  }

  lemma {:induction false} CapOverRuns<S>(step: BackendFn<S>, s: Session<S>, frames: seq<seq<byte>>)
    requires s.maxFrameBody <= DEFAULT_MAX_FRAME_BODY
    ensures var s' := HandleAll(step, s, frames).state;
            s'.maxFrameBody <= DEFAULT_MAX_FRAME_BODY &&
            (s.maxFrameBody < 12 ==> s'.maxFrameBody == s.maxFrameBody)
    decreases |frames|
  {
    hide HandleFrame;
    if frames != [] {
      CapStep(step, s, frames[0]);
      CapOverRuns(step, HandleFrame(step, s, frames[0]).state, frames[1..]);
    }
  }

  // Numbering

  /** What the reply to a request must look like apart from its body. */
  predicate Answers(request: FrameHeader, reply: FrameHeader, seqNo: u64) {
    && reply.version == PROTOCOL_MAJOR && reply.flags == 0
    && reply.kind == Response
    && reply.opcode == (if request.opcode == HELLO then WELCOME else request.opcode)
    && reply.reqId == request.reqId
    && reply.seqNo == seqNo
  }

  lemma ReplyDecodes(opcode: u32, reqId: u32, seqNo: u64, body: seq<byte>)
    ensures DecodeFrame(ReplyFrame(opcode, reqId, seqNo, body)) ==
            Ok(Frame(FrameHeader(PROTOCOL_MAJOR, 0, Response, opcode, reqId, seqNo, Truncate32(|body|)), body))
  {
    FrameRoundTrip(FrameHeader(PROTOCOL_MAJOR, 0, Response, opcode, reqId, seqNo, Truncate32(|body|)), body);
  }

  /** A success answers its request under the next number; a failure uses no number. */
  lemma {:induction false} HandleNumbers<S>(step: BackendFn<S>, s: Session<S>, frame: seq<byte>)
    ensures var r := HandleFrame(step, s, frame);
            if r.reply.Err? then r.state.nextSeq == s.nextSeq
            else r.state.nextSeq == (s.nextSeq + 1) % 0x1_0000_0000_0000_0000
                 && DecodeFrame(frame).Ok? && DecodeFrame(r.reply.value).Ok?
                 && Answers(DecodeFrame(frame).value.header, DecodeFrame(r.reply.value).value.header, s.nextSeq)
  {
    hide DecodeFrame, EncodeFrame, DecodeHello, EncodeWelcome, ReplyFrame;
    match DecodeFrame(frame)
    case Err(_) =>
    case Ok(f) =>
      forall opcode, reqId, seqNo, body
        ensures DecodeFrame(ReplyFrame(opcode, reqId, seqNo, body)) ==
                Ok(Frame(FrameHeader(PROTOCOL_MAJOR, 0, Response, opcode, reqId, seqNo, Truncate32(|body|)), body))
      {
        ReplyDecodes(opcode, reqId, seqNo, body);
      }
  }

  /** How many of the first `n` outcomes were replies. */
  function Successes(outcomes: seq<Outcome>, n: nat): nat
    requires n <= |outcomes|
  {
    if n == 0 then 0 else Successes(outcomes, n - 1) + if outcomes[n - 1].Ok? then 1 else 0
  }

  lemma {:induction false} SuccessesTail(outcomes: seq<Outcome>, n: nat)
    requires 0 < n <= |outcomes|
    ensures Successes(outcomes, n) == (if outcomes[0].Ok? then 1 else 0) + Successes(outcomes[1..], n - 1)
  {
    if n > 1 {
      SuccessesTail(outcomes, n - 1);
    }
  }

  function Stamp(first: u64, n: nat): u64
    decreases n
  {
    if n == 0 then first else Stamp(WrappingNext64(first), n - 1)
  }

  lemma {:induction false} StampIsSum(first: u64, n: nat)
    ensures Stamp(first, n) == (first + n) % 0x1_0000_0000_0000_0000
    decreases n
  {
    hide WrappingNext64;
    if n > 0 {
      StampIsSum(WrappingNext64(first), n - 1);
      OnceRound(first, n);
    }
  }

  lemma OnceRound(first: u64, n: nat)
    requires n > 0
    ensures (WrappingNext64(first) + (n - 1)) % 0x1_0000_0000_0000_0000 == (first + n) % 0x1_0000_0000_0000_0000
  {
    if first < U64_MAX {
      assert WrappingNext64(first) == first + 1;
    } else {
      var rest := n - 1;
      assert first + n == 0x1_0000_0000_0000_0000 + rest;
      assert (0x1_0000_0000_0000_0000 + rest) % 0x1_0000_0000_0000_0000 == rest % 0x1_0000_0000_0000_0000;
    }
  }

  /** Over any run the successful replies are numbered consecutively, with no gaps, echoing their requests. */
  lemma {:induction false} RunNumbers<S>(step: BackendFn<S>, s: Session<S>, frames: seq<seq<byte>>, i: nat)
    requires i < |frames|
    ensures var outcomes := HandleAll(step, s, frames).outcomes;
            outcomes[i].Ok? ==>
              && DecodeFrame(frames[i]).Ok? && DecodeFrame(outcomes[i].value).Ok?
              && Answers(DecodeFrame(frames[i]).value.header, DecodeFrame(outcomes[i].value).value.header,
                         Stamp(s.nextSeq, Successes(outcomes, i)))
    decreases i
  {
    hide HandleFrame, DecodeFrame;
    HandleNumbers(step, s, frames[0]);
    var outcomes := HandleAll(step, s, frames).outcomes;
    if i > 0 {
      var s' := HandleFrame(step, s, frames[0]).state;
      RunNumbers(step, s', frames[1..], i - 1);
      SuccessesTail(outcomes, i);
      assert outcomes[1..] == HandleAll(step, s', frames[1..]).outcomes;
    }
  }

  /** In a fresh session the n-th successful reply carries sequence number n, modulo 2^64. */
  lemma {:induction false} FreshSessionCounts<S>(step: BackendFn<S>, s: Session<S>, frames: seq<seq<byte>>, i: nat)
    requires i < |frames| && s.nextSeq == 1
    ensures var outcomes := HandleAll(step, s, frames).outcomes;
            outcomes[i].Ok? ==>
              && DecodeFrame(frames[i]).Ok? && DecodeFrame(outcomes[i].value).Ok?
              && Answers(DecodeFrame(frames[i]).value.header, DecodeFrame(outcomes[i].value).value.header,
                         (Successes(outcomes, i) + 1) % 0x1_0000_0000_0000_0000)
  {
    hide HandleFrame, DecodeFrame;
    RunNumbers(step, s, frames, i);
    StampIsSum(1, Successes(HandleAll(step, s, frames).outcomes, i));
  }
}
