/** One API's frames get the same answers whatever is sent to the other APIs of the session. */
module NonInterference {
  import opened Prelude
  import opened Wire
  import opened Protocol
  import opened Sessions

  /** HELLO frames and the frames of one API; undecodable frames belong to no API. */
  predicate Concerns(api: u8, frame: seq<byte>) {
    DecodeFrame(frame).Ok? &&
    var opcode := DecodeFrame(frame).value.header.opcode;
    opcode == HELLO || OpcodeApi(opcode) == api
  }

  function Restrict(api: u8, frames: seq<seq<byte>>): seq<seq<byte>> {
    if frames == [] then []
    else (if Concerns(api, frames[0]) then [frames[0]] else []) + Restrict(api, frames[1..])
  }

  /** The outcomes of the frames that concern the API. */
  function RestrictOutcomes(api: u8, frames: seq<seq<byte>>, outcomes: seq<Outcome>): seq<Outcome>
    requires |frames| == |outcomes|
  {
    if frames == [] then []
    else (if Concerns(api, frames[0]) then [outcomes[0]] else []) + RestrictOutcomes(api, frames[1..], outcomes[1..])
  }

  /** Equal errors, or reply frames equal byte for byte outside the sequence number (bytes 16 to 23). */
  predicate SameButStamp(a: Outcome, b: Outcome) {
    match (a, b)
    case (Ok(x), Ok(y)) => |x| == |y| && |x| >= 24 && x[..16] == y[..16] && x[24..] == y[24..]
    case (Err(d), Err(e)) => d == e
    case _ => false
  }

  /** The two sessions look the same to the API and to the handshake. */
  predicate Agree<S(==)>(api: u8, s: Session<S>, t: Session<S>) {
    && s.id == t.id && s.maxFrameBody == t.maxFrameBody && s.handshook == t.handshook
    && (api in s.backends <==> api in t.backends)
    && (api in s.backends ==> s.backends[api] == t.backends[api])
  }

  lemma StampWidths()
    ensures TotalWidth(HEADER_WIDTHS[..6]) == 16
  {
    ShortWidths(2, 2, 2, 2);
    ShortWidths(4, 4, 0, 0);
    TotalWidthConcat([2, 2, 2, 2], [4, 4]);
    assert HEADER_WIDTHS[..6] == [2, 2, 2, 2] + [4, 4];
  }

  lemma RepliesDifferInStamp(opcode: u32, reqId: u32, a: u64, b: u64, body: seq<byte>)
    ensures SameButStamp(Ok(ReplyFrame(opcode, reqId, a, body)), Ok(ReplyFrame(opcode, reqId, b, body)))
  {
    var h := FrameHeader(PROTOCOL_MAJOR, 0, Response, opcode, reqId, a, Truncate32(|body|));
    var h' := h.(seqNo := b);
    var vs := HeaderValues(h, 0);
    assert vs[6 := b] == HeaderValues(h', 0);
    StampWidths();
    ReplaceField(HEADER_WIDTHS, vs, 6, b);
    StampApart(EncodeHeader(h), LittleEndian(8, b), body);
  }

  lemma StampApart(header: seq<byte>, stamp: seq<byte>, body: seq<byte>)
    requires |header| == HEADER_LEN && |stamp| == 8
    ensures var a, b := header + body, (header[..16] + stamp + header[24..]) + body;
            |a| == |b| && a[..16] == b[..16] && a[24..] == b[24..]
  {
    var b := (header[..16] + stamp + header[24..]) + body;
    assert b[24..] == header[24..] + body;
  }

  lemma GreetAgrees<S>(api: u8, s: Session<S>, t: Session<S>, reqId: u32, body: seq<byte>)
    requires Agree(api, s, t)
    ensures Agree(api, Greet(s, reqId, body).state, Greet(t, reqId, body).state)
    ensures SameButStamp(Greet(s, reqId, body).reply, Greet(t, reqId, body).reply)
  {
    hide ReplyFrame, EncodeWelcome, DecodeHello, SameButStamp;
    match DecodeHello(body)
    case Err(e) => assert SameButStamp(Err(e), Err(e)) by { SameError(e); }
    case Ok(hello) =>
      if hello.major != PROTOCOL_MAJOR {
        SameError(BadVersion(hello.major, hello.minor));
      } else {
        var cap := if hello.maxFrameBody <= DEFAULT_MAX_FRAME_BODY then hello.maxFrameBody else DEFAULT_MAX_FRAME_BODY;
        RepliesDifferInStamp(WELCOME, reqId, s.nextSeq, t.nextSeq,
                             EncodeWelcome(Welcome(PROTOCOL_MAJOR, PROTOCOL_MINOR, 0, cap, s.id)));
      }
  }

  lemma SameError(e: ProtocolError)
    ensures SameButStamp(Err(e), Err(e))
  {
  }

  lemma RouteAgrees<S>(step: BackendFn<S>, api: u8, s: Session<S>, t: Session<S>, opcode: u32, reqId: u32, body: seq<byte>)
    requires Agree(api, s, t) && OpcodeApi(opcode) == api
    ensures Agree(api, Route(step, s, opcode, reqId, body).state, Route(step, t, opcode, reqId, body).state)
    ensures SameButStamp(Route(step, s, opcode, reqId, body).reply, Route(step, t, opcode, reqId, body).reply)
  {
    hide ReplyFrame, SameButStamp, OpcodeApi;
    if api !in s.backends {
      SameError(UnknownOpcode(opcode));
    } else {
      match step(s.backends[api], opcode, reqId, body).reply
      case Err(e) => SameError(e);
      case Ok(resp) => RepliesDifferInStamp(opcode, reqId, s.nextSeq, t.nextSeq, resp);
    }
  }

  /** A frame that concerns the API: both sessions do the same and still agree. */
  lemma ConcernedStep<S>(step: BackendFn<S>, api: u8, s: Session<S>, t: Session<S>, frame: seq<byte>)
    requires Agree(api, s, t) && Concerns(api, frame)
    ensures Agree(api, HandleFrame(step, s, frame).state, HandleFrame(step, t, frame).state)
    ensures SameButStamp(HandleFrame(step, s, frame).reply, HandleFrame(step, t, frame).reply)
  {
    hide Greet, Route, ReplyFrame, OpcodeApi, DecodeFrame;
    var f := DecodeFrame(frame).value;
    var h := f.header;
    GreetAgrees(api, s, t, h.reqId, f.body);
    RepliesDifferInStamp(NOOP, h.reqId, s.nextSeq, t.nextSeq, []);
    if OpcodeApi(h.opcode) == api {
      RouteAgrees(step, api, s, t, h.opcode, h.reqId, f.body);
    }
  }

  /** Any other frame changes nothing the API could notice. */
  lemma UnconcernedStep<S>(step: BackendFn<S>, api: u8, s: Session<S>, t: Session<S>, frame: seq<byte>)
    requires Agree(api, s, t) && !Concerns(api, frame)
    ensures Agree(api, HandleFrame(step, s, frame).state, t)
  {
    hide ReplyFrame, OpcodeApi, DecodeFrame, Greet;
  }

  /**
   For any backends and any frames: dropping every frame but the HELLOs and one API's own leaves each
   remaining frame with the same error, or the same reply up to its sequence number.
   */
  lemma {:induction false} OtherApisDoNotInterfere<S>(step: BackendFn<S>, api: u8, s: Session<S>, t: Session<S>, frames: seq<seq<byte>>)
    requires Agree(api, s, t)
    ensures var full := HandleAll(step, s, frames);
            var alone := HandleAll(step, t, Restrict(api, frames));
            var kept := RestrictOutcomes(api, frames, full.outcomes);
            && Agree(api, full.state, alone.state)
            && |kept| == |alone.outcomes|
            && forall i :: 0 <= i < |kept| ==> SameButStamp(kept[i], alone.outcomes[i])
    decreases |frames|
  {
    hide HandleFrame, SameButStamp, Concerns, Agree;
    if frames != [] {
      var s' := HandleFrame(step, s, frames[0]).state;
      var rest := Restrict(api, frames[1..]);
      var full := HandleAll(step, s', frames[1..]);
      assert HandleAll(step, s, frames).outcomes[1..] == full.outcomes;
      if Concerns(api, frames[0]) {
        ConcernedStep(step, api, s, t, frames[0]);
        var t' := HandleFrame(step, t, frames[0]).state;
        OtherApisDoNotInterfere(step, api, s', t', frames[1..]);
        assert ([frames[0]] + rest)[1..] == rest;
      } else {
        UnconcernedStep(step, api, s, t, frames[0]);
        OtherApisDoNotInterfere(step, api, s', t, frames[1..]);
        assert [] + rest == rest;
      }
    }
  }
}
