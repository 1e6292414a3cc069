/** Recording a client's frames and replaying its requests against a fresh session. */
module Traces {
  import opened Prelude
  import opened Protocol
  import opened Bodies
  import opened Backends
  import opened Sessions
  import opened Streams
  import opened Serving
  import opened Clients

  type Trace = seq<seq<byte>>

  predicate IsRequest(frame: seq<byte>) {
    DecodeFrame(frame).Ok? && DecodeFrame(frame).value.header.kind == Request
  }

  /** A request is a frame with at least a header whose kind field is zero. */
  lemma {:induction false} RequestsByKind(frame: seq<byte>)
    ensures IsRequest(frame) <==> |frame| >= HEADER_LEN && KindField(frame) == 0
  {
    DecodeFrameAccepts(frame);
  }

  /** The recorded requests, in capture order: what a replay sends. */
  function Requests(trace: Trace): Trace {
    if trace == [] then []
    else (if IsRequest(trace[0]) then [trace[0]] else []) + Requests(trace[1..])
  }

  /** Everything else in the trace. */
  function Others(trace: Trace): Trace {
    if trace == [] then []
    else (if IsRequest(trace[0]) then [] else [trace[0]]) + Others(trace[1..])
  }

  lemma {:induction false} RequestsConcat(a: Trace, b: Trace)
    ensures Requests(a + b) == Requests(a) + Requests(b)
    ensures Others(a + b) == Others(a) + Others(b)
  {
    hide IsRequest;
    if a == [] {
      assert a + b == b;
    } else {
      assert (a + b)[1..] == a[1..] + b;
      RequestsConcat(a[1..], b);
    }
  }

  /** A link with a recorder on it: a frame is recorded once its operation has succeeded. */
  datatype Recorded = Recorded(link: Link, trace: Trace)

  /** Send one request over the recorded link and, if that went out, wait for the reply. */
  function RecordOne(r: Recorded, request: seq<byte>): Recorded {
    var (l1, failure) := LinkSend(r.link, request);
    if failure.Some? then Recorded(l1, r.trace)
    else
      var (l2, reply) := LinkRecv(l1);
      Recorded(l2, r.trace + [request] + if reply.Ok? then [reply.value] else [])
  }

  function RecordAll(r: Recorded, requests: Trace): Recorded
    decreases |requests|
  {
    if requests == [] then r else RecordAll(RecordOne(r, requests[0]), requests[1..])
  }

  /** Requests as a client makes them: request-kind frames within the transport's cap. */
  predicate ClientFrames(requests: Trace) {
    forall i :: 0 <= i < |requests| ==> IsRequest(requests[i]) && |requests[i]| <= MAX_FRAME
  }

  lemma AnswersSmall(b: BackendState, opcode: u32, reqId: u32, body: seq<byte>)
    ensures var r := BackendStep(b, opcode, reqId, body).reply; r.Ok? ==> |r.value| <= 12
  {
    hide VkApply, VideoApply, OpcodeApi, EncodeAnswer, DecodeAnswer;
    if c :| DecodeCall(opcode, body) == Ok(c) {
      if ApplyCall(b, c).Some? {
        AnswersFit(b, c);
        AnswerRoundTrip(c, ApplyCall(b, c).value.1);
      }
    }
  }

  lemma RepliesSmall(s: Session<BackendState>, frame: seq<byte>)
    ensures var r := HandleFrame(BackendStep, s, frame).reply;
            r.Ok? ==> |r.value| <= HEADER_LEN + 20 && !IsRequest(r.value)
  {
    hide DecodeFrame, EncodeFrame, BackendStep, EncodeWelcome, DecodeHello, OpcodeApi, ReplyFrame;
    forall w ensures |EncodeWelcome(w)| == 20 { HandshakeLengths(Hello(0, 0, 0, 0), w); }
    forall opcode, reqId, seqNo, body
      ensures |ReplyFrame(opcode, reqId, seqNo, body)| == HEADER_LEN + |body| && !IsRequest(ReplyFrame(opcode, reqId, seqNo, body))
    {
      FrameLengths(opcode, reqId, seqNo, body);
      ReplyDecodes(opcode, reqId, seqNo, body);
    }
    if DecodeFrame(frame).Ok? {
      var f := DecodeFrame(frame).value;
      var api := OpcodeApi(f.header.opcode);
      if api in s.backends {
        AnswersSmall(s.backends[api], f.header.opcode, f.header.reqId, f.body);
      }
    }
  }

  /** What recording one exchange over a quiet link adds to the trace. */
  lemma RecordQuiet(r: Recorded, request: seq<byte>)
    requires Quiet(r.link) && IsRequest(request) && |request| <= MAX_FRAME
    ensures var h := HandleFrame(BackendStep, r.link.session, request);
            && Requests(RecordOne(r, request).trace) == Requests(r.trace) + [request]
            && (h.reply.Ok? ==>
                  && RecordOne(r, request).link == r.link.(session := h.state)
                  && Others(RecordOne(r, request).trace) == Others(r.trace) + [h.reply.value])
            && (h.reply.Err? ==>
                  && RecordOne(r, request).link == r.link.(session := h.state, open := false)
                  && Others(RecordOne(r, request).trace) == Others(r.trace))
  {
    hide HandleFrame, LinkSend, LinkRecv, IsRequest, Quiet, Requests, Others;
    RepliesSmall(r.link.session, request);
    QuietExchange(r.link, request);
    OneFrame(request);
    RequestsConcat(r.trace, [request]);
    var h := HandleFrame(BackendStep, r.link.session, request);
    if h.reply.Ok? {
      OneFrame(h.reply.value);
      RequestsConcat(r.trace + [request], [h.reply.value]);
      assert Requests(r.trace) + [request] + [] == Requests(r.trace) + [request];
    } else {
      assert r.trace + [request] + [] == r.trace + [request];
    }
    assert Others(r.trace) + [] == Others(r.trace);
  }

  /** Requests and what came back alternate, starting with a request. */
  predicate Alternates(trace: Trace) {
    forall i :: 0 <= i < |trace| ==> (IsRequest(trace[i]) <==> i % 2 == 0)
  }

  lemma ExchangeAlternates(r: Recorded, request: seq<byte>)
    requires Quiet(r.link) && IsRequest(request) && |request| <= MAX_FRAME
    requires Alternates(r.trace) && |r.trace| % 2 == 0
    ensures var r1 := RecordOne(r, request);
            && Alternates(r1.trace) && r.trace + [request] <= r1.trace
            && (HandleFrame(BackendStep, r.link.session, request).reply.Ok? ==> |r1.trace| % 2 == 0)
  {
    hide HandleFrame, LinkSend, LinkRecv, IsRequest, Quiet;
    RepliesSmall(r.link.session, request);
    QuietExchange(r.link, request);
  }

  /** The trace of any client run keeps capture order: each request is followed by its own reply. */
  lemma {:induction false} RecordingAlternates(r: Recorded, requests: Trace)
    requires Quiet(r.link) && ClientFrames(requests)
    requires Alternates(r.trace) && |r.trace| % 2 == 0
    ensures Alternates(RecordAll(r, requests).trace)
    decreases |requests|
  {
    hide HandleFrame, RecordOne, IsRequest, Quiet, Alternates, Requests, Others;
    if requests != [] {
      var h := HandleFrame(BackendStep, r.link.session, requests[0]);
      ExchangeAlternates(r, requests[0]);
      RecordQuiet(r, requests[0]);
      if h.reply.Ok? {
        QuietSession(r.link, h.state);
        RecordingAlternates(RecordOne(r, requests[0]), requests[1..]);
      } else {
        ClosedRecordsNothing(RecordOne(r, requests[0]), requests[1..]);
      }
    }
  }

  lemma OneFrame(frame: seq<byte>)
    ensures Requests([frame]) == if IsRequest(frame) then [frame] else []
    ensures Others([frame]) == if IsRequest(frame) then [] else [frame]
  {
    hide IsRequest;
    assert [frame][1..] == [];
  }

  lemma {:induction false} ClosedRecordsNothing(r: Recorded, requests: Trace)
    requires !r.link.open
    ensures RecordAll(r, requests) == r
    decreases |requests|
  {
    if requests != [] {
      ClosedRecordsNothing(r, requests[1..]);
    }
  }

  /** How many of the requests go out: those answered, and the one that ends the session, if any. */
  function Sent(s: Session<BackendState>, requests: Trace): (n: nat)
    ensures n <= |requests|
    decreases |requests|
  {
    if requests == [] then 0
    else
      var h := HandleFrame(BackendStep, s, requests[0]);
      if h.reply.Err? then 1 else 1 + Sent(h.state, requests[1..])
  }

  lemma ServeOne(frame: seq<byte>, rest: Trace, sent: Trace, s: Session<BackendState>)
    ensures var h := HandleFrame(BackendStep, s, frame);
            Serve(BackendStep, Line(AllOk([frame] + rest), [], sent), s) ==
            if h.reply.Err? then Served(Line(AllOk(rest), [], sent), h.state, Ok(()))
            else Serve(BackendStep, Line(AllOk(rest), [], sent + [h.reply.value]), h.state)
  {
    hide HandleFrame, Serve;
    assert ([frame] + rest)[1..] == rest;
    assert AllOk([frame] + rest)[1..] == AllOk(rest);
    ServeTurn(BackendStep, Line(AllOk([frame] + rest), [], sent), s);
  }

  /**
   Record and replay: a client's run recorded on a quiet link holds, as its requests, exactly the
   requests that went out, in order; serving just those to a session that starts where the recorded
   one did answers with byte for byte the recorded replies and ends in the same state.
   */
  lemma {:induction false} ReplayIsFaithful(r: Recorded, requests: Trace, sent: Trace)
    requires Quiet(r.link) && ClientFrames(requests)
    ensures var end := RecordAll(r, requests);
            var out := requests[..Sent(r.link.session, requests)];
            var again := Serve(BackendStep, Line(AllOk(out), [], sent), r.link.session);
            && Requests(end.trace) == Requests(r.trace) + out
            && (exists replies :: again.line.sent == sent + replies && Others(end.trace) == Others(r.trace) + replies)
            && again.session == end.link.session
            && again.result == Ok(())
    decreases |requests|
  {
    hide HandleFrame, RecordOne, IsRequest, Quiet, Requests, Others, Serve;
    if requests == [] {
      assert Requests(r.trace) + [] == Requests(r.trace) && Others(r.trace) + [] == Others(r.trace) && sent + [] == sent;
      ServeTurn(BackendStep, Line([], [], sent), r.link.session);
    } else {
      var request, rest := requests[0], requests[1..];
      var s := r.link.session;
      var h := HandleFrame(BackendStep, s, request);
      var r1 := RecordOne(r, request);
      RecordQuiet(r, request);
      if h.reply.Ok? {
        var n := Sent(h.state, rest);
        QuietSession(r.link, h.state);
        ReplayIsFaithful(r1, rest, sent + [h.reply.value]);
        assert requests[..n + 1] == [request] + rest[..n];
        ServeOne(request, rest[..n], sent, s);
        var again := Serve(BackendStep, Line(AllOk(rest[..n]), [], sent + [h.reply.value]), h.state);
        var replies :| again.line.sent == sent + [h.reply.value] + replies
                       && Others(RecordAll(r1, rest).trace) == Others(r1.trace) + replies;
        assert sent + [h.reply.value] + replies == sent + ([h.reply.value] + replies);
        assert Others(r.trace) + [h.reply.value] + replies == Others(r.trace) + ([h.reply.value] + replies);
      } else {
        ClosedRecordsNothing(r1, rest);
        ServeOne(request, [], sent, s);
        assert requests[..1] == [request] + [];
        assert Others(r.trace) + [] == Others(r.trace) && sent + [] == sent;
      }
    }
  }

  lemma QuietSession(l: Link, s: Session<BackendState>)
    ensures Quiet(l) ==> Quiet(l.(session := s))
  {
  }

  /** The frames the client's shims send are such requests. */
  lemma {:induction false} DemandFramesAreRequests(reqId: u32, seqNo: u64, d: Demand)
    ensures IsRequest(FrameUnder(reqId, seqNo, d)) && |FrameUnder(reqId, seqNo, d)| <= MAX_FRAME
  {
    hide DecodeFrame, EncodeFrame, EncodeCall, OpcodeOf;
    match d
    case Ping =>
      FrameRoundTrip(FrameHeader(PROTOCOL_MAJOR, 0, Request, NOOP, reqId, seqNo, Truncate32(0)), []);
      FrameLengths(NOOP, reqId, seqNo, []);
    case Invoke(call) =>
      var body := EncodeCall(call);
      CallBodiesSmall(call);
      FrameRoundTrip(FrameHeader(PROTOCOL_MAJOR, 0, Request, OpcodeOf(call), reqId, seqNo, Truncate32(|body|)), body);
      FrameLengths(OpcodeOf(call), reqId, seqNo, body);
  }

  /** So is the frame they open the connection with. */
  lemma {:induction false} HelloFrameIsRequest()
    ensures IsRequest(HelloFrame()) && |HelloFrame()| <= MAX_FRAME
  {
    hide DecodeFrame, EncodeFrame, EncodeHello;
    var hello := Hello(PROTOCOL_MAJOR, PROTOCOL_MINOR, 0, DEFAULT_MAX_FRAME_BODY);
    HandshakeLengths(hello, Welcome(0, 0, 0, 0, 0));
    FrameRoundTrip(FrameHeader(PROTOCOL_MAJOR, 0, Request, HELLO, 1, 1, Truncate32(12)), EncodeHello(hello));
    FrameLengths(HELLO, 1, 1, EncodeHello(hello));
  }

  /** The frames of a run of demands: they depend on the client's counters, not on the replies. */
  function FramesOf(nextReqId: u32, nextSeq: u64, ds: seq<Demand>): Trace
    decreases |ds|
  {
    if ds == [] then []
    else
      [FrameUnder(nextReqId, nextSeq, ds[0])]
      + FramesOf(SaturatingAdd32(nextReqId, 1), SaturatingAdd64(nextSeq, 1), ds[1..])
  }

  lemma DemandIsRecorded(c: Client, d: Demand, trace: Trace)
    ensures var c' := Demanded(c, d).0;
            && c'.link == RecordOne(Recorded(c.link, trace), DemandFrame(c, d)).link
            && c'.nextReqId == SaturatingAdd32(c.nextReqId, 1) && c'.nextSeq == SaturatingAdd64(c.nextSeq, 1)
  {
    hide LinkSend, LinkRecv, CallFrame, RequestFrame, OpcodeOf;
  }

  lemma {:induction false} RunFramesAreRequests(reqId: u32, seqNo: u64, ds: seq<Demand>)
    ensures ClientFrames(FramesOf(reqId, seqNo, ds))
    decreases |ds|
  {
    hide IsRequest, FrameUnder;
    if ds != [] {
      DemandFramesAreRequests(reqId, seqNo, ds[0]);
      RunFramesAreRequests(SaturatingAdd32(reqId, 1), SaturatingAdd64(seqNo, 1), ds[1..]);
    }
  }

  /** Recording does not disturb the link: the client's run leaves it as the recorded run does. */
  lemma {:induction false} RunIsRecorded(c: Client, ds: seq<Demand>, trace: Trace)
    ensures DemandAll(c, ds).0.link == RecordAll(Recorded(c.link, trace), FramesOf(c.nextReqId, c.nextSeq, ds)).link
    decreases |ds|
  {
    hide Demanded, RecordOne, FrameUnder, SaturatingAdd32, SaturatingAdd64;
    if ds != [] {
      var c1 := Demanded(c, ds[0]).0;
      var frame := DemandFrame(c, ds[0]);
      var r1 := RecordOne(Recorded(c.link, trace), frame);
      DemandIsRecorded(c, ds[0], trace);
      RunIsRecorded(c1, ds[1..], r1.trace);
      var rest := FramesOf(c1.nextReqId, c1.nextSeq, ds[1..]);
      assert ([frame] + rest)[1..] == rest;
    }
  }

  /**
   A recorded run of any client demands replays: its trace holds exactly the requests that went out,
   and serving them to a session equal to the one the client started on reproduces every recorded
   reply byte for byte and the client's final session state.
   */
  lemma {:induction false} ClientRunReplays(c: Client, ds: seq<Demand>)
    requires Quiet(c.link)
    ensures var frames := FramesOf(c.nextReqId, c.nextSeq, ds);
            var trace := RecordAll(Recorded(c.link, []), frames).trace;
            var again := Serve(BackendStep, Line(AllOk(Requests(trace)), [], []), c.link.session);
            && Requests(trace) == frames[..Sent(c.link.session, frames)]
            && again.line.sent == Others(trace)
            && again.session == DemandAll(c, ds).0.link.session
            && again.result == Ok(())
  {
    hide Quiet, Serve, RecordAll, DemandAll, FramesOf, ClientFrames;
    var frames := FramesOf(c.nextReqId, c.nextSeq, ds);
    var start := Recorded(c.link, []);
    RunIsRecorded(c, ds, []);
    RunFramesAreRequests(c.nextReqId, c.nextSeq, ds);
    ReplayIsFaithful(start, frames, []);
    var out := frames[..Sent(c.link.session, frames)];
    var again := Serve(BackendStep, Line(AllOk(out), [], []), c.link.session);
    var replies :| again.line.sent == [] + replies && Others(RecordAll(start, frames).trace) == Others([]) + replies;
    assert Requests([]) + out == out && Others([]) + replies == replies && [] + replies == replies;
  }

  lemma HandshakeIsRecorded(l: Link, trace: Trace)
    ensures Handshake(l).0 == RecordOne(Recorded(l, trace), HelloFrame()).link
  {
    hide LinkSend, LinkRecv, HelloFrame;
  }

  /** All frames of a client that connects and then makes its demands. */
  function ConnectedFrames(ds: seq<Demand>): Trace {
    [HelloFrame()] + FramesOf(2, 2, ds)
  }

  /** Recording that client from its first frame on leaves the link as its own run does. */
  lemma {:induction false} ConnectedRunIsRecorded(l: Link, ds: seq<Demand>)
    requires Connect(l).1.Ok? && Connect(l).1.value.nextReqId == 2 && Connect(l).1.value.nextSeq == 2
    ensures DemandAll(Connect(l).1.value, ds).0.link == RecordAll(Recorded(l, []), ConnectedFrames(ds)).link
    ensures ClientFrames(ConnectedFrames(ds))
  {
    hide Handshake, RecordOne, DemandAll, FramesOf, IsRequest, HelloFrame;
    var c := Connect(l).1.value;
    var first := RecordOne(Recorded(l, []), HelloFrame());
    HandshakeIsRecorded(l, []);
    RunIsRecorded(c, ds, first.trace);
    assert ConnectedFrames(ds)[1..] == FramesOf(2, 2, ds);
    HelloFrameIsRequest();
    RunFramesAreRequests(2, 2, ds);
  }

  // Replay as a loop over any transport

  /** Re-sends the requests in order; the first failing send ends it. */
  function Replay(line: Line, trace: Trace): (Line, Option<IoError>)
    decreases |trace|
  {
    if trace == [] then (line, None)
    else if !IsRequest(trace[0]) then Replay(line, trace[1..])
    else if line.NextSend().Some? then (line.AfterSend(trace[0]), line.NextSend())
    else Replay(line.AfterSend(trace[0]), trace[1..])
  }

  lemma RequestsStep(trace: Trace)
    ensures trace != [] ==>
              Requests(trace) == if IsRequest(trace[0]) then [trace[0]] + Requests(trace[1..]) else Requests(trace[1..])
  {
    hide IsRequest;
  }

  /** Replay sends the requests in order up to the first send that fails, and passes on that failure. */
  lemma {:induction false} ReplaySendsRequests(line: Line, trace: Trace)
    ensures var (end, failure) := Replay(line, trace);
            var k := FirstRefusal(line.plan);
            if k < |line.plan| && k < |Requests(trace)| then
              failure == line.plan[k] && end.sent == line.sent + Requests(trace)[..k]
            else
              failure == None && end.sent == line.sent + Requests(trace)
    decreases |trace|
  {
    hide IsRequest;
    RequestsStep(trace);
    if trace != [] {
      if !IsRequest(trace[0]) {
        ReplaySendsRequests(line, trace[1..]);
      } else if line.NextSend().None? {
        ReplaySendsRequests(line.AfterSend(trace[0]), trace[1..]);
        var rest := Requests(trace[1..]);
        assert line.sent + ([trace[0]] + rest) == line.sent + [trace[0]] + rest;
        if 0 < FirstRefusal(line.plan) <= |rest| {
          var k := FirstRefusal(line.plan) - 1;
          assert ([trace[0]] + rest)[..k + 1] == [trace[0]] + rest[..k];
          assert line.sent + ([trace[0]] + rest[..k]) == line.sent + [trace[0]] + rest[..k];
        }
      } else {
        assert line.sent + Requests(trace)[..0] == line.sent;
      }
    } else {
      assert line.sent + [] == line.sent;
    }
  }

  lemma NothingRecorded()
    ensures Requests([]) == [] && Others([]) == []
  {
  }

  /** What the trace of such a client holds: the requests that went out, and the replies to just those. */
  lemma {:induction false} ConnectedTraceHolds(l: Link, ds: seq<Demand>)
    requires Quiet(l) && l.session.maxFrameBody == DEFAULT_MAX_FRAME_BODY && l.session.nextSeq == 1
    ensures Connect(l).1.Ok?
    ensures var frames := ConnectedFrames(ds);
            var trace := RecordAll(Recorded(l, []), frames).trace;
            var again := Serve(BackendStep, Line(AllOk(Requests(trace)), [], []), l.session);
            && Requests(trace) == frames[..Sent(l.session, frames)]
            && again.line.sent == Others(trace)
            && again.session == DemandAll(Connect(l).1.value, ds).0.link.session
            && again.result == Ok(())
  {
    hide Quiet, Serve, RecordAll, DemandAll, ConnectedFrames, ClientFrames, Connect, Requests, Others;
    ConnectNegotiates(l);
    ConnectedRunIsRecorded(l, ds);
    var frames := ConnectedFrames(ds);
    var start := Recorded(l, []);
    ReplayIsFaithful(start, frames, []);
    var trace := RecordAll(start, frames).trace;
    NothingRecorded();
    var out := frames[..Sent(l.session, frames)];
    assert Requests(trace) == [] + out == out;
    var again := Serve(BackendStep, Line(AllOk(out), [], []), l.session);
    var replies :| again.line.sent == [] + replies && Others(trace) == [] + replies;
  }

  /**
   Record and replay of everything a client does on a fresh session, handshake included: replaying
   the trace re-sends exactly the requests that went out, in order; serving what was re-sent to a
   session equal to the one the client connected to gives every recorded reply byte for byte and
   ends in the session state the client's own run ended in.
   */
  lemma {:induction false} ConnectedRunReplays(l: Link, ds: seq<Demand>)
    requires Quiet(l) && l.session.maxFrameBody == DEFAULT_MAX_FRAME_BODY && l.session.nextSeq == 1
    ensures Connect(l).1.Ok?
    ensures var frames := ConnectedFrames(ds);
            var trace := RecordAll(Recorded(l, []), frames).trace;
            var (resent, failure) := Replay(Line([], [], []), trace);
            var again := Serve(BackendStep, Line(AllOk(resent.sent), [], []), l.session);
            && failure.None? && resent.sent == frames[..Sent(l.session, frames)]
            && again.line.sent == Others(trace)
            && again.session == DemandAll(Connect(l).1.value, ds).0.link.session
            && again.result == Ok(())
  {
    hide Quiet, Serve, RecordAll, DemandAll, ConnectedFrames, Connect, Replay, Requests, Others;
    ConnectedTraceHolds(l, ds);
    var trace := RecordAll(Recorded(l, []), ConnectedFrames(ds)).trace;
    ReplaySendsRequests(Line([], [], []), trace);
    assert [] + Requests(trace) == Requests(trace);
  }

  // The numbers in a recorded run

  lemma {:induction false} FramesCarry(reqId: u32, seqNo: u64, ds: seq<Demand>, k: nat)
    requires k < |ds|
    ensures k < |FramesOf(reqId, seqNo, ds)|
    ensures Carries(FramesOf(reqId, seqNo, ds)[k], Min(reqId + k, U32_MAX), Min(seqNo + k, U64_MAX))
    decreases k
  {
    hide Carries, FrameUnder;
    if k == 0 {
      FrameCarries(reqId, seqNo, ds[0]);
    } else {
      FramesCarry(SaturatingAdd32(reqId, 1), SaturatingAdd64(seqNo, 1), ds[1..], k - 1);
    }
  }

  lemma {:induction false} FramesCount(reqId: u32, seqNo: u64, ds: seq<Demand>)
    ensures |FramesOf(reqId, seqNo, ds)| == |ds|
    decreases |ds|
  {
    hide FrameUnder;
    if ds != [] {
      FramesCount(SaturatingAdd32(reqId, 1), SaturatingAdd64(seqNo, 1), ds[1..]);
    }
  }

  lemma HelloCarries()
    ensures Carries(HelloFrame(), 1, 1)
  {
    hide DecodeFrame, HelloFrame, EncodeHello;
    HelloFrameDecodes();
  }

  /** If there are as many replies as outcomes, every outcome is a reply. */
  lemma {:induction false} AllReplied(outcomes: seq<Outcome>, k: nat)
    requires |Replies(outcomes)| == |outcomes| && k < |outcomes|
    ensures outcomes[k].Ok? && Replies(outcomes)[k] == outcomes[k].value
    ensures Successes(outcomes, k) == k
    decreases k
  {
    RepliesBound(outcomes[1..]);
    if k > 0 {
      AllReplied(outcomes[1..], k - 1);
      AllReplied(outcomes, k - 1);
    }
  }

  lemma {:induction false} RepliesBound(outcomes: seq<Outcome>)
    ensures |Replies(outcomes)| <= |outcomes|
  {
    if outcomes != [] {
      RepliesBound(outcomes[1..]);
    }
  }

  /** All requests sent but perhaps the last were handled. */
  lemma {:induction false} SentAreHandled(s: Session<BackendState>, requests: Trace)
    ensures Sent(s, requests) <= HandledPrefix(BackendStep, s, requests[..Sent(s, requests)]) + 1
    decreases |requests|
  {
    hide HandleFrame;
    if requests != [] {
      var h := HandleFrame(BackendStep, s, requests[0]);
      if h.reply.Ok? {
        var n := Sent(h.state, requests[1..]);
        SentAreHandled(h.state, requests[1..]);
        assert requests[..n + 1][1..] == requests[1..][..n];
      }
    }
  }

  /** In what a serve loop sent for `out`, reply `k` answers request `k` under number k + 1. */
  lemma {:induction false} ServedNumbers(s: Session<BackendState>, out: Trace)
    requires s.nextSeq == 1
    ensures var sent := Serve(BackendStep, Line(AllOk(out), [], []), s).line.sent;
            && |sent| == HandledPrefix(BackendStep, s, out)
            && forall k, reqId, seqNo {:trigger sent[k], Carries(out[k], reqId, seqNo)} ::
                 0 <= k < |sent| && k + 1 <= U64_MAX && Carries(out[k], reqId, seqNo) ==> Carries(sent[k], reqId, k + 1)
  {
    hide HandleFrame, DecodeFrame, Serve, AllOk, FailsAtomically, HandleAll, Replies, Successes;
    BackendsFailAtomically();
    ServesLongestPrefix(BackendStep, out, [], s);
    var n := HandledPrefix(BackendStep, s, out);
    var outcomes := HandleAll(BackendStep, s, out[..n]).outcomes;
    assert [] + Replies(outcomes) == Replies(outcomes);
    forall k, reqId, seqNo | 0 <= k < n && k + 1 <= U64_MAX && Carries(out[k], reqId, seqNo)
      ensures Carries(Replies(outcomes)[k], reqId, k + 1)
    {
      AllReplied(outcomes, k);
      FreshSessionCounts(BackendStep, s, out[..n], k);
    }
  }

  lemma ConnectedFrameCarries(ds: seq<Demand>, k: nat)
    requires k < |ConnectedFrames(ds)| && k + 1 <= U64_MAX
    ensures Carries(ConnectedFrames(ds)[k], Min(k + 1, U32_MAX), k + 1)
  {
    hide Carries, FramesOf, HelloFrame;
    FramesCount(2, 2, ds);
    if k == 0 {
      HelloCarries();
    } else {
      FramesCarry(2, 2, ds, k - 1);
    }
  }

  /**
   In the trace of a client on a fresh session, from the handshake on, the k-th request and the k-th
   reply, counting from 1, both carry request id k, capped at 2^32 - 1, and sequence number k; every
   request but perhaps the last was answered.
   */
  lemma {:induction false} ConnectedTraceNumbers(l: Link, ds: seq<Demand>)
    requires Quiet(l) && l.session.maxFrameBody == DEFAULT_MAX_FRAME_BODY && l.session.nextSeq == 1
    ensures var trace := RecordAll(Recorded(l, []), ConnectedFrames(ds)).trace;
            var requests, replies := Requests(trace), Others(trace);
            && |replies| <= |requests| <= |replies| + 1
            && (forall k :: 0 < k <= |requests| && k <= U64_MAX ==> Carries(requests[k - 1], Min(k, U32_MAX), k))
            && (forall k :: 0 < k <= |replies| && k <= U64_MAX ==> Carries(replies[k - 1], Min(k, U32_MAX), k))
  {
    hide Quiet, Serve, RecordAll, Connect, Requests, Others, Carries, ConnectedFrames, HandledPrefix, Sent, DemandAll;
    var frames, s := ConnectedFrames(ds), l.session;
    ConnectedTraceHolds(l, ds);
    var trace := RecordAll(Recorded(l, []), frames).trace;
    var requests, replies := Requests(trace), Others(trace);
    SentAreHandled(s, frames);
    ServedNumbers(s, requests);
    forall k | 0 < k <= |requests| && k <= U64_MAX ensures Carries(requests[k - 1], Min(k, U32_MAX), k) {
      ConnectedFrameCarries(ds, k - 1);
    }
    forall k | 0 < k <= |replies| && k <= U64_MAX ensures Carries(replies[k - 1], Min(k, U32_MAX), k) {
      assert Carries(requests[k - 1], Min(k, U32_MAX), k);
      var i := k - 1;
      assert Carries(replies[i], Min(k, U32_MAX), i + 1);
    }
  }
}
