/** The two serve loops over a scripted transport. */
module Serving {
  import opened Prelude
  import opened Protocol
  import opened Sessions
  import opened Streams
  import opened Obs

  /**
   A transport by script: what each receive will yield, what each send will answer (sends past the
   end of the plan succeed), and the frames sent so far. An exhausted inbox reports end of file.
   */
  datatype Line = Line(inbox: seq<Result<seq<byte>, IoError>>, plan: seq<Option<IoError>>, sent: seq<seq<byte>>) {
    function AfterRecv(): Line {
      if inbox == [] then this else this.(inbox := inbox[1..])
    }

    function NextRecv(): Result<seq<byte>, IoError> {
      if inbox == [] then Err(EndOfFile) else inbox[0]
    }

    function NextSend(): Option<IoError> {
      if plan == [] then None else plan[0]
    }

    function AfterSend(frame: seq<byte>): Line {
      this.(plan := if plan == [] then [] else plan[1..], sent := if NextSend().None? then sent + [frame] else sent)
    }
  }

  predicate CleanClose(e: IoError) {
    e == EndOfFile || e == BrokenPipe
  }

  datatype Served<S> = Served(line: Line, session: Session<S>, result: Result<(), IoError>)

  /** The plain loop. */
  function Serve<S>(step: BackendFn<S>, line: Line, s: Session<S>): Served<S>
    decreases |line.inbox|
  {
    var next := line.AfterRecv();
    match line.NextRecv()
    case Err(e) => Served(next, s, if CleanClose(e) then Ok(()) else Err(e))
    case Ok(frame) =>
      var r := HandleFrame(step, s, frame);
      match r.reply
      case Err(_) => Served(next, r.state, Ok(()))
      case Ok(reply) =>
        match next.NextSend()
        case Some(e) => Served(next.AfterSend(reply), r.state, Err(e))
        case None => Serve(step, next.AfterSend(reply), r.state)
  }

  datatype Turn = Stopped(result: Result<(), IoError>) | Replied(request: seq<byte>, reply: seq<byte>)

  datatype TurnEnd<S> = TurnEnd(line: Line, session: Session<S>, turn: Turn)

  /** One turn: receive, handle, send. */
  function TakeTurn<S>(step: BackendFn<S>, line: Line, s: Session<S>): TurnEnd<S> {
    var next := line.AfterRecv();
    match line.NextRecv()
    case Err(e) => TurnEnd(next, s, Stopped(if CleanClose(e) then Ok(()) else Err(e)))
    case Ok(frame) =>
      var r := HandleFrame(step, s, frame);
      match r.reply
      case Err(_) => TurnEnd(next, r.state, Stopped(Ok(())))
      case Ok(reply) =>
        match next.NextSend()
        case Some(e) => TurnEnd(next.AfterSend(reply), r.state, Stopped(Err(e)))
        case None => TurnEnd(next.AfterSend(reply), r.state, Replied(frame, reply))
  }

  lemma ServeTurn<S>(step: BackendFn<S>, line: Line, s: Session<S>)
    ensures var t := TakeTurn(step, line, s);
            && (t.turn.Stopped? ==> Serve(step, line, s) == Served(t.line, t.session, t.turn.result))
            && (t.turn.Replied? ==> Serve(step, line, s) == Serve(step, t.line, t.session) && |t.line.inbox| < |line.inbox|)
  {
    hide HandleFrame;
  }

  function ApiName(api: u8): string {
    if api == 0x00 then "core"
    else if api == 0x01 then "vulkan"
    else if api == 0x02 then "opengl"
    else if api == 0x03 then "cuda"
    else if api == 0x04 then "opencl"
    else if api == 0x05 then "hip"
    else if api == 0x06 then "level_zero"
    else if api == 0x07 then "video"
    else if api == 0x08 then "webgpu"
    else if api == 0x09 then "optix"
    else if api == 0x0A then "sycl"
    else if api == 0x0B then "amf"
    else "unknown"
  }

  const LAST_API: u8 := 0x0B

  /** The label peeked from a frame before it is handled; a malformed header has none. */
  function Label(frame: seq<byte>): Option<string> {
    match DecodeFrame(frame)
    case Err(_) => None
    case Ok(f) => Some(ApiName(OpcodeApi(f.header.opcode)))
  }

  datatype Metered<S> = Metered(served: Served<S>, log: seq<CallRecord>)

  /** The instrumented loop; its log is what it records into the registry. */
  function ServeMetered<S>(step: BackendFn<S>, line: Line, s: Session<S>): Metered<S>
    decreases |line.inbox|
  {
    var next := line.AfterRecv();
    match line.NextRecv()
    case Err(e) => Metered(Served(next, s, if CleanClose(e) then Ok(()) else Err(e)), [])
    case Ok(frame) =>
      var tag := Label(frame);
      var r := HandleFrame(step, s, frame);
      match r.reply
      case Err(_) => Metered(Served(next, r.state, Ok(())), [])
      case Ok(reply) =>
        match next.NextSend()
        case Some(e) => Metered(Served(next.AfterSend(reply), r.state, Err(e)), [])
        case None =>
          var rest := ServeMetered(step, next.AfterSend(reply), r.state);
          Metered(rest.served, (if tag.Some? then [CallRecord(tag.value, |frame|, |reply|)] else []) + rest.log)
  }

  function LogEntry(frame: seq<byte>, reply: seq<byte>): seq<CallRecord> {
    if Label(frame).Some? then [CallRecord(Label(frame).value, |frame|, |reply|)] else []
  }

  lemma MeteredTurn<S>(step: BackendFn<S>, line: Line, s: Session<S>)
    ensures var t := TakeTurn(step, line, s);
            && (t.turn.Stopped? ==>
                  ServeMetered(step, line, s) == Metered(Served(t.line, t.session, t.turn.result), []))
            && (t.turn.Replied? ==>
                  var rest := ServeMetered(step, t.line, t.session);
                  ServeMetered(step, line, s) == Metered(rest.served, LogEntry(t.turn.request, t.turn.reply) + rest.log)
                  && |t.line.inbox| < |line.inbox|)
  {
    hide HandleFrame, Label;
  }

  /** For any script of receives and sends, instrumentation changes neither result, frames nor session. */
  lemma {:induction false} MeteredSimulatesPlain<S>(step: BackendFn<S>, line: Line, s: Session<S>)
    ensures ServeMetered(step, line, s).served == Serve(step, line, s)
    decreases |line.inbox|
  {
    hide HandleFrame, Label;
    match line.NextRecv()
    case Err(_) =>
    case Ok(frame) =>
      var r := HandleFrame(step, s, frame);
      if r.reply.Ok? && line.AfterRecv().NextSend().None? {
        MeteredSimulatesPlain(step, line.AfterRecv().AfterSend(r.reply.value), r.state);
      }
  }

  /** One log entry per reply sent, with the lengths of the request and its reply, in order. */
  predicate LogMatches(log: seq<CallRecord>, requests: seq<seq<byte>>, replies: seq<seq<byte>>) {
    && |log| == |replies| <= |requests|
    && forall i :: 0 <= i < |log| ==>
         Label(requests[i]) == Some(log[i].api) && log[i].bytesOut == |requests[i]| && log[i].bytesIn == |replies[i]|
  }

  /** The frames of a script, up to its first receive error. */
  function Frames(inbox: seq<Result<seq<byte>, IoError>>): seq<seq<byte>> {
    if inbox == [] || inbox[0].Err? then [] else [inbox[0].value] + Frames(inbox[1..])
  }

  lemma {:induction false} LogCoversReplies<S>(step: BackendFn<S>, line: Line, s: Session<S>)
    ensures var m := ServeMetered(step, line, s);
            line.sent <= m.served.line.sent
            && LogMatches(m.log, Frames(line.inbox), m.served.line.sent[|line.sent|..])
    decreases |line.inbox|
  {
    hide HandleFrame, Label, LogMatches, ServeMetered, TakeTurn;
    NoneMatches(Frames(line.inbox));
    assert line.sent[|line.sent|..] == [];
    MeteredTurn(step, line, s);
    TurnSends(step, line, s);
    var t := TakeTurn(step, line, s);
    if t.turn.Replied? {
      var request, reply := t.turn.request, t.turn.reply;
      LabelExists(request);
      var rest := ServeMetered(step, t.line, t.session);
      LogCoversReplies(step, t.line, t.session);
      ConsMatches(CallRecord(Label(request).value, |request|, |reply|), rest.log, request, Frames(t.line.inbox),
                  reply, rest.served.line.sent[|t.line.sent|..]);
      assert rest.served.line.sent[|line.sent|..] == [reply] + rest.served.line.sent[|t.line.sent|..];
    }
  }

  /** A turn sends its reply, if any, and nothing else. */
  lemma TurnSends<S>(step: BackendFn<S>, line: Line, s: Session<S>)
    ensures var t := TakeTurn(step, line, s);
            && (t.turn.Stopped? ==> t.line.sent == line.sent)
            && (t.turn.Replied? ==>
                  && t.line.sent == line.sent + [t.turn.reply]
                  && Frames(line.inbox) == [t.turn.request] + Frames(t.line.inbox)
                  && DecodeFrame(t.turn.request).Ok?)
  {
    hide HandleFrame, DecodeFrame;
    if line.NextRecv().Ok? {
      HandleNumbers(step, s, line.NextRecv().value);
    }
  }

  lemma NoneMatches(requests: seq<seq<byte>>)
    ensures LogMatches([], requests, [])
  {
  }

  lemma ConsMatches(c: CallRecord, log: seq<CallRecord>, request: seq<byte>, requests: seq<seq<byte>>, reply: seq<byte>, replies: seq<seq<byte>>)
    requires LogMatches(log, requests, replies)
    requires Label(request) == Some(c.api) && c.bytesOut == |request| && c.bytesIn == |reply|
    ensures LogMatches([c] + log, [request] + requests, [reply] + replies)
  {
    hide Label;
  }

  lemma LabelExists(frame: seq<byte>)
    ensures DecodeFrame(frame).Ok? ==> Label(frame).Some?
  {
    hide DecodeFrame;
  }

  // Names

  lemma KnownNames(api: u8, other: u8)
    requires api <= LAST_API
    ensures ApiName(api) != "unknown"
    ensures ApiName(api) == ApiName(other) ==> api == other
  {
    var a, b := ApiName(api), ApiName(other);
    assert a == b ==> |a| == |b| && a[0] == b[0] && a[1] == b[1] && a[|a| - 1] == b[|b| - 1];
  }

  /** The registry keys, by API byte. */
  const API_NAMES: seq<string> := ["core", "vulkan", "opengl", "cuda", "opencl", "hip", "level_zero", "video", "webgpu",
                                   "optix", "sycl", "amf"]

  /** Frames are labelled by the API their opcode belongs to. */
  lemma {:induction false} LabelsByApi(h: FrameHeader, body: seq<byte>)
    ensures var api := OpcodeApi(h.opcode);
            Label(EncodeFrame(h, body)) == Some(if api < |API_NAMES| then API_NAMES[api] else "unknown")
  {
    hide EncodeFrame, DecodeFrame;
    FrameRoundTrip(h, body);
  }

  predicate KnownBackends<S>(s: Session<S>) {
    forall api :: api in s.backends ==> api <= LAST_API
  }

  lemma HandleKeepsBackends<S>(step: BackendFn<S>, s: Session<S>, frame: seq<byte>)
    ensures HandleFrame(step, s, frame).state.backends.Keys == s.backends.Keys
    ensures HandleFrame(step, s, frame).reply.Ok? ==>
              DecodeFrame(frame).Ok? &&
              (OpcodeApi(DecodeFrame(frame).value.header.opcode) == 0 ||
               OpcodeApi(DecodeFrame(frame).value.header.opcode) in s.backends)
  {
    hide DecodeFrame, DecodeHello, EncodeWelcome, ReplyFrame;
  }

  lemma TurnKnown<S>(step: BackendFn<S>, line: Line, s: Session<S>)
    requires KnownBackends(s)
    ensures var t := TakeTurn(step, line, s);
            t.turn.Replied? ==>
              && KnownBackends(t.session)
              && forall e :: e in LogEntry(t.turn.request, t.turn.reply) ==> e.api != "unknown"
  {
    hide HandleFrame, DecodeFrame, ApiName;
    if line.NextRecv().Ok? {
      var frame := line.NextRecv().value;
      HandleKeepsBackends(step, s, frame);
      if DecodeFrame(frame).Ok? && OpcodeApi(DecodeFrame(frame).value.header.opcode) <= LAST_API {
        KnownNames(OpcodeApi(DecodeFrame(frame).value.header.opcode), 0);
      }
    }
  }

  /** With backends registered under real API ids only, "unknown" is never recorded. */
  lemma {:induction false} UnknownNeverRecorded<S>(step: BackendFn<S>, line: Line, s: Session<S>, i: nat)
    requires KnownBackends(s) && i < |ServeMetered(step, line, s).log|
    ensures ServeMetered(step, line, s).log[i].api != "unknown"
    decreases |line.inbox|
  {
    hide ServeMetered, TakeTurn, LogEntry, KnownBackends;
    MeteredTurn(step, line, s);
    TurnKnown(step, line, s);
    var t := TakeTurn(step, line, s);
    if t.turn.Replied? {
      var entry := LogEntry(t.turn.request, t.turn.reply);
      if i < |entry| {
        assert entry[i] in entry;
      } else {
        UnknownNeverRecorded(step, t.line, t.session, i - |entry|);
      }
    }
  }

  /**
   Metrics conservation: after serving into an empty registry, each API's counters are the true sums
   of its replies' calls and byte lengths, clamped at 2^64 - 1.
   */
  lemma {:induction false} ServedMetricsConserved<S>(step: BackendFn<S>, line: Line, s: Session<S>, api: string)
    ensures var m := ServeMetered(step, line, s);
            && Lookup(RecordAll(map[], m.log), api) == SumOf(m.log, api).Clamp()
            && (KnownBackends(s) ==> "unknown" !in RecordAll(map[], m.log))
  {
    hide ServeMetered;
    var log := ServeMetered(step, line, s).log;
    RegistryConserves(log, api);
    RegistryConserves(log, "unknown");
    if KnownBackends(s) && Mentions(log, "unknown") {
      var i :| 0 <= i < |log| && log[i].api == "unknown";
      UnknownNeverRecorded(step, line, s, i);
    }
  }

  // A finite queue of frames and sends that always succeed

  function AllOk(frames: seq<seq<byte>>): seq<Result<seq<byte>, IoError>> {
    if frames == [] then [] else [Ok(frames[0])] + AllOk(frames[1..])
  }

  /** How many frames are handled before the first that is not. */
  function HandledPrefix<S>(step: BackendFn<S>, s: Session<S>, frames: seq<seq<byte>>): (n: nat)
    ensures n <= |frames|
    decreases |frames|
  {
    if frames == [] || HandleFrame(step, s, frames[0]).reply.Err? then 0
    else 1 + HandledPrefix(step, HandleFrame(step, s, frames[0]).state, frames[1..])
  }

  function Replies(outcomes: seq<Outcome>): seq<seq<byte>> {
    if outcomes == [] then []
    else (if outcomes[0].Ok? then [outcomes[0].value] else []) + Replies(outcomes[1..])
  }

  /**
   On a finite inbox the loop ends normally with the outbox holding the replies of the longest
   successfully handled prefix, and, if backends fail without a trace, in the state after it.
   */
  lemma {:induction false} ServesLongestPrefix<S(!new)>(step: BackendFn<S>, frames: seq<seq<byte>>, sent: seq<seq<byte>>, s: Session<S>)
    requires FailsAtomically(step)
    ensures var n := HandledPrefix(step, s, frames);
            var run := HandleAll(step, s, frames[..n]);
            var served := Serve(step, Line(AllOk(frames), [], sent), s);
            && served.result == Ok(())
            && served.line.sent == sent + Replies(run.outcomes)
            && |Replies(run.outcomes)| == n
            && served.session == run.state
            && (n < |frames| ==> HandleFrame(step, run.state, frames[n]).reply.Err?)
    decreases |frames|
  {
    hide HandleFrame, FailsAtomically, Serve;
    var line := Line(AllOk(frames), [], sent);
    ServeTurn(step, line, s);
    if frames == [] {
      assert frames[..0] == [];
    } else {
      var r := HandleFrame(step, s, frames[0]);
      HandleFailsAtomically(step, s, frames[0]);
      assert AllOk(frames)[1..] == AllOk(frames[1..]);
      if r.reply.Ok? {
        var n := HandledPrefix(step, r.state, frames[1..]);
        ServesLongestPrefix(step, frames[1..], sent + [r.reply.value], r.state);
        OneMoreHandled(step, s, frames, n);
      } else {
        assert frames[..0] == [];
      }
    }
  }

  lemma OneMoreHandled<S>(step: BackendFn<S>, s: Session<S>, frames: seq<seq<byte>>, n: nat)
    requires n < |frames| && HandleFrame(step, s, frames[0]).reply.Ok?
    ensures var r := HandleFrame(step, s, frames[0]);
            var all, rest := HandleAll(step, s, frames[..n + 1]), HandleAll(step, r.state, frames[1..][..n]);
            all.state == rest.state && Replies(all.outcomes) == [r.reply.value] + Replies(rest.outcomes)
  {
    hide HandleFrame;
    assert frames[..n + 1][1..] == frames[1..][..n];
    var r := HandleFrame(step, s, frames[0]);
    var rest := HandleAll(step, r.state, frames[1..][..n]);
    assert ([r.reply] + rest.outcomes)[1..] == rest.outcomes;
  }

  /** How many sends succeed before the first the plan refuses. */
  function FirstRefusal(plan: seq<Option<IoError>>): (n: nat)
    ensures n <= |plan|
    ensures n < |plan| ==> plan[n].Some?
    ensures forall i :: 0 <= i < n ==> plan[i].None?
  {
    if plan == [] || plan[0].Some? then 0 else 1 + FirstRefusal(plan[1..])
  }

  /**
   What a loop comes to for every inbox that ends in a receive error and every plan of sends: it stops
   at the first frame not handled, the first reply that cannot be sent or the closing error, whichever
   is first. Only a refused send and an unclean closing error are passed on; the replies sent are those
   before the stop, and the session has handled the frames up to it.
   */
  lemma {:induction false} LoopOutcome<S(!new)>(step: BackendFn<S>, frames: seq<seq<byte>>, e: IoError,
                                                plan: seq<Option<IoError>>, sent: seq<seq<byte>>, s: Session<S>)
    requires FailsAtomically(step)
    ensures var served := Serve(step, Line(AllOk(frames) + [Err(e)], plan, sent), s);
            var n, k := HandledPrefix(step, s, frames), FirstRefusal(plan);
            if k < n && k < |plan| then
              && served.result == Err(plan[k].value)
              && served.line.sent == sent + Replies(HandleAll(step, s, frames[..k]).outcomes)
              && served.session == HandleAll(step, s, frames[..k + 1]).state
            else
              && served.result == (if n < |frames| || CleanClose(e) then Ok(()) else Err(e))
              && served.line.sent == sent + Replies(HandleAll(step, s, frames[..n]).outcomes)
              && served.session == HandleAll(step, s, frames[..n]).state
    decreases |frames|
  {
    hide HandleFrame, FailsAtomically, Serve, HandleAll, Replies, CleanClose, FirstRefusal, HandledPrefix;
    var line := Line(AllOk(frames) + [Err(e)], plan, sent);
    ServeTurn(step, line, s);
    NothingHandled(step, s, frames);
    PrefixSteps(step, s, frames, plan);
    if frames != [] {
      var r := HandleFrame(step, s, frames[0]);
      HandleFailsAtomically(step, s, frames[0]);
      assert (AllOk(frames) + [Err(e)])[1..] == AllOk(frames[1..]) + [Err(e)];
      if r.reply.Ok? {
        var rest := if plan == [] then [] else plan[1..];
        OneHandled(step, s, frames);
        if line.AfterRecv().NextSend().None? {
          LoopOutcome(step, frames[1..], e, rest, sent + [r.reply.value], r.state);
          var n, k := HandledPrefix(step, r.state, frames[1..]), FirstRefusal(rest);
          OneMoreHandled(step, s, frames, n);
          if k < n && k < |rest| {
            OneMoreHandled(step, s, frames, k);
            OneMoreHandled(step, s, frames, k + 1);
          }
          assert forall more :: sent + [r.reply.value] + more == sent + ([r.reply.value] + more);
        }
      }
    }
  }

  lemma PrefixSteps<S>(step: BackendFn<S>, s: Session<S>, frames: seq<seq<byte>>, plan: seq<Option<IoError>>)
    ensures HandledPrefix(step, s, frames) ==
            if frames == [] || HandleFrame(step, s, frames[0]).reply.Err? then 0
            else 1 + HandledPrefix(step, HandleFrame(step, s, frames[0]).state, frames[1..])
    ensures FirstRefusal(plan) == if plan == [] || plan[0].Some? then 0 else 1 + FirstRefusal(plan[1..])
  {
  }

  lemma NothingHandled<S>(step: BackendFn<S>, s: Session<S>, frames: seq<seq<byte>>)
    ensures HandleAll(step, s, frames[..0]) == Run(s, []) && Replies([]) == []
  {
  }

  lemma OneHandled<S>(step: BackendFn<S>, s: Session<S>, frames: seq<seq<byte>>)
    requires frames != []
    ensures HandleAll(step, s, frames[..1]).state == HandleFrame(step, s, frames[0]).state
  {
    hide HandleFrame;
    assert frames[..1][1..] == [];
  }

  /** When every frame was answered, the kind of the closing error alone decides what the loop returns. */
  lemma {:induction false} CloseDecidesResult<S>(step: BackendFn<S>, frames: seq<seq<byte>>, e: IoError, sent: seq<seq<byte>>, s: Session<S>)
    ensures Serve(step, Line(AllOk(frames) + [Err(e)], [], sent), s).result ==
            if HandledPrefix(step, s, frames) < |frames| || e == EndOfFile || e == BrokenPipe then Ok(()) else Err(e)
    decreases |frames|
  {
    hide HandleFrame, Serve;
    var line := Line(AllOk(frames) + [Err(e)], [], sent);
    ServeTurn(step, line, s);
    if frames != [] {
      var r := HandleFrame(step, s, frames[0]);
      assert (AllOk(frames) + [Err(e)])[1..] == AllOk(frames[1..]) + [Err(e)];
      if r.reply.Ok? {
        CloseDecidesResult(step, frames[1..], e, sent + [r.reply.value], r.state);
      }
    }
  }
}
