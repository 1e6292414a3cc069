/** What the client makes of any reply at all, right or wrong, over a link that may deliver any frame. */
module ReplyChecks {
  import opened Prelude
  import opened Handles
  import opened Wire
  import opened Protocol
  import opened Bodies
  import opened Backends
  import opened Streams
  import opened Clients

  /** A reply frame passes if and only if it is a response under the opcode asked for; else it is reported as it is. */
  lemma {:induction false} RepliesCheckedExactly(h: FrameHeader, body: seq<byte>, expected: u32)
    ensures CheckReply(Ok(EncodeFrame(h, body)), expected) ==
            if h.opcode == expected && h.kind == Response then Ok(body)
            else Err(UnexpectedReply(h.opcode, h.kind))
  {
    hide EncodeFrame, DecodeFrame;
    FrameRoundTrip(h, body);
  }

  /** Bytes that are no frame are reported as the decoder reports them, a failed receive as it failed. */
  lemma {:induction false} BrokenRepliesReported(frame: seq<byte>, e: IoError, expected: u32)
    ensures |frame| < HEADER_LEN ==> CheckReply(Ok(frame), expected) == Err(Malformed(UnexpectedEof))
    ensures |frame| >= HEADER_LEN && KindField(frame) > 2 ==>
              CheckReply(Ok(frame), expected) == Err(Malformed(BadKind(KindField(frame))))
    ensures CheckReply(Err(e), expected) == Err(Transport(e))
  {
    hide DecodeFrame;
    DecodeFrameAccepts(frame);
  }

  /** The first handle of another kind is the one reported; there is nothing to report only if there is none. */
  lemma {:induction false} KindsCheckedExactly(kind: u8, hs: seq<Handle>)
    ensures CheckKinds(kind, hs).None? <==> forall i :: 0 <= i < |hs| ==> hs[i].kind == kind
    ensures CheckKinds(kind, hs).Some? ==>
              exists i :: 0 <= i < |hs| && hs[i].kind != kind
                          && (forall j :: 0 <= j < i ==> hs[j].kind == kind)
                          && CheckKinds(kind, hs) == Some(Malformed(BadKind(hs[i].kind)))
  {
    if hs != [] && hs[0].kind == kind {
      KindsCheckedExactly(kind, hs[1..]);
      assert hs == [hs[0]] + hs[1..];
      if CheckKinds(kind, hs[1..]).Some? {
        var i :| 0 <= i < |hs[1..]| && hs[1..][i].kind != kind && (forall j :: 0 <= j < i ==> hs[1..][j].kind == kind)
                 && CheckKinds(kind, hs[1..]) == Some(Malformed(BadKind(hs[1..][i].kind)));
        assert hs[i + 1] == hs[1..][i];
      }
    }
  }

  /**
   What a shim that expects a handle returns for each body: end of buffer if it is short, the handle if
   its kind is the expected one, else that kind as a bad one.
   */
  lemma {:induction false} HandleAnswersChecked(c: Call, h: Handle, rest: seq<byte>)
    requires ExpectedKind(c).Some? && !c.EnumeratePhysicalDevices?
    ensures DecodeAnswer(c, EncodeHandle(h) + rest) ==
            if h.kind == ExpectedKind(c).value then Ok(Created(h)) else Err(Malformed(BadKind(h.kind)))
    ensures |rest| < 8 ==> DecodeAnswer(c, rest) == Err(Malformed(UnexpectedEof))
  {
    hide EncodeHandle;
    HandleBodyRoundTrip(h, rest);
  }

  /** The enumerating shim returns the devices only if every handle is a physical device. */
  lemma {:induction false} DeviceAnswersChecked(c: Call, hs: seq<Handle>, rest: seq<byte>)
    requires c.EnumeratePhysicalDevices? && |hs| <= U32_MAX
    ensures var r := DecodeAnswer(c, EncodeDevices(hs) + rest);
            if forall i :: 0 <= i < |hs| ==> hs[i].kind == KIND_PHYSICAL_DEVICE then r == Ok(Devices(hs))
            else
              exists i :: 0 <= i < |hs| && hs[i].kind != KIND_PHYSICAL_DEVICE
                          && (forall j :: 0 <= j < i ==> hs[j].kind == KIND_PHYSICAL_DEVICE)
                          && r == Err(Malformed(BadKind(hs[i].kind)))
  {
    hide EncodeDevices, DecodeDevices, CheckKinds;
    DevicesRoundTrip(hs, rest);
    KindsCheckedExactly(KIND_PHYSICAL_DEVICE, hs);
  }

  /** A list cut short is the end of the buffer, for any body. */
  lemma {:induction false} ShortDevicesReported(c: Call, body: seq<byte>)
    requires c.EnumeratePhysicalDevices?
    requires |body| < 4 || |body| < 4 + 8 * FromLittleEndian(body[..4])
    ensures DecodeAnswer(c, body) == Err(Malformed(UnexpectedEof))
  {
    hide DecodeDevices, CheckKinds;
    DevicesCutShort(body);
  }

  lemma DevicesCutShort(body: seq<byte>)
    requires |body| < 4 || |body| < 4 + 8 * FromLittleEndian(body[..4])
    ensures DecodeDevices(body) == Err(UnexpectedEof)
  {
    hide DecodeHandles;
    if |body| >= 4 {
      LittleEndianReencode(body[..4]);
      HandlesAccept(DecodeWord(body).value, body[4..]);
    }
  }

  /** A decode shim returns the index read, or the end of a short buffer; the other shims take any body. */
  lemma {:induction false} OtherAnswersChecked(c: Call, index: u32, rest: seq<byte>)
    ensures c.DecodeVideoFrame? ==> DecodeAnswer(c, LittleEndian(4, index) + rest) == Ok(FrameIndex(index))
    ensures c.DecodeVideoFrame? && |rest| < 4 ==> DecodeAnswer(c, rest) == Err(Malformed(UnexpectedEof))
    ensures ExpectedKind(c).None? && !c.DecodeVideoFrame? ==> DecodeAnswer(c, rest) == Ok(Ack)
  {
    hide LittleEndian;
    WordBodyRoundTrip(index, rest);
  }

  // Over a link

  /** The next frame the client will receive is this one, whatever the server does meanwhile. */
  predicate Delivers(l: Link, frame: seq<byte>) {
    l.open && |frame| <= MAX_FRAME && Framed(frame) <= l.down
  }

  lemma TurnOnlyAppends(l: Link)
    ensures l.down <= ServerTurn(l).down
  {
    hide Receive, Framed;
  }

  lemma ReceivesDelivered(l: Link, frame: seq<byte>)
    requires |frame| <= MAX_FRAME && Framed(frame) <= l.down
    ensures LinkRecv(l).1 == Ok(frame)
  {
    hide ServerTurn, Receive, Framed;
    TurnOnlyAppends(l);
    var down := ServerTurn(l).down;
    ReceiveFramed(MAX_FRAME, frame, down[|Framed(frame)|..]);
    assert down == Framed(frame) + down[|Framed(frame)|..];
  }

  lemma {:induction false} ExchangeChecksDelivered(l: Link, request: seq<byte>, frame: seq<byte>, expected: u32)
    requires Delivers(l, frame) && |request| <= U32_MAX
    ensures Exchange(l, request, expected).1 == CheckReply(Ok(frame), expected)
  {
    hide Framed, LinkRecv, CheckReply;
    var l1 := LinkSend(l, request).0;
    ReceivesDelivered(l1, frame);
  }

  /** A request that cannot go out is reported as its send failed, and nothing happens at the far end. */
  lemma {:induction false} UnsentRequestsReported(l: Link, request: seq<byte>, expected: u32)
    ensures !l.open ==> Exchange(l, request, expected) == (l, Err(Transport(BrokenPipe)))
    ensures l.open && |request| > U32_MAX ==> Exchange(l, request, expected) == (l, Err(Transport(InvalidInput)))
    ensures l.open && |request| <= U32_MAX ==>
              Exchange(l, request, expected).0 == LinkRecv(l.(up := l.up + Framed(request))).0
  {
    hide LinkRecv, CheckReply, Framed;
  }

  /**
   Whatever frame the link delivers next, a shim returns an answer only from a response under its own
   opcode; any other frame is an unexpected reply, by its opcode and kind.
   */
  lemma {:induction false} ShimRefusesWrongReplies(l: Link, c: Call, reqId: u32, seqNo: u64, h: FrameHeader, body: seq<byte>)
    requires Delivers(l, EncodeFrame(h, body))
    ensures Shim(l, c, reqId, seqNo).1 ==
            if h.opcode == OpcodeOf(c) && h.kind == Response then DecodeAnswer(c, body)
            else Err(UnexpectedReply(h.opcode, h.kind))
  {
    hide Delivers, EncodeFrame, Exchange, CallFrame, OpcodeOf, DecodeAnswer, CheckReply;
    CallFrameSmall(c, reqId, seqNo);
    ExchangeChecksDelivered(l, CallFrame(c, reqId, seqNo), EncodeFrame(h, body), OpcodeOf(c));
    RepliesCheckedExactly(h, body, OpcodeOf(c));
  }

  /** A no-op succeeds exactly on a no-op response, whatever its body. */
  lemma {:induction false} NoopRefusesWrongReplies(l: Link, reqId: u32, seqNo: u64, h: FrameHeader, body: seq<byte>)
    requires Delivers(l, EncodeFrame(h, body))
    ensures Noop(l, reqId, seqNo).1 ==
            if h.opcode == NOOP && h.kind == Response then Ok(Ack) else Err(UnexpectedReply(h.opcode, h.kind))
  {
    hide Delivers, EncodeFrame, Exchange, RequestFrame, CheckReply;
    FrameLengths(NOOP, reqId, seqNo, []);
    ExchangeChecksDelivered(l, RequestFrame(NOOP, reqId, seqNo, []), EncodeFrame(h, body), NOOP);
    RepliesCheckedExactly(h, body, NOOP);
  }

  /**
   Connecting succeeds exactly on a WELCOME response with a whole body, and then with the session id
   that body carries and both counters at 2.
   */
  lemma {:induction false} ConnectRefusesWrongReplies(l: Link, h: FrameHeader, body: seq<byte>)
    requires Delivers(l, EncodeFrame(h, body))
    ensures var r := Connect(l).1;
            if h.opcode != WELCOME || h.kind != Response then r == Err(UnexpectedReply(h.opcode, h.kind))
            else if |body| < 20 then r == Err(Malformed(UnexpectedEof))
            else
              && DecodeWelcome(body).Ok? && r.Ok?
              && r.value.sessionId == DecodeWelcome(body).value.sessionId
              && r.value.nextReqId == 2 && r.value.nextSeq == 2
  {
    hide Delivers, EncodeFrame, Exchange, RequestFrame, CheckReply, DecodeWelcome, EncodeHello;
    var hello := Hello(PROTOCOL_MAJOR, PROTOCOL_MINOR, 0, DEFAULT_MAX_FRAME_BODY);
    HandshakeLengths(hello, Welcome(0, 0, 0, 0, 0));
    FrameLengths(HELLO, 1, 1, EncodeHello(hello));
    ExchangeChecksDelivered(l, HelloFrame(), EncodeFrame(h, body), WELCOME);
    RepliesCheckedExactly(h, body, WELCOME);
    HandshakeReencode(body);
  }
}
