/** Every run of the video backend from empty: the frame index each decode returns. */
module VideoRuns {
  import opened Prelude
  import opened Handles
  import opened Tables
  import opened TableInvariant
  import opened Wire
  import opened Protocol
  import opened Bodies
  import opened Backends
  import opened ObjectGraphs
  import opened VulkanRuns

  function VideoAccepted(s: VideoState, m: Message): Option<Call> {
    if OpcodeApi(m.opcode) != API_VIDEO then None
    else
      match DecodeCall(m.opcode, m.body)
      case Err(_) => None
      case Ok(c) => if VideoApply(s, c).Some? then Some(c) else None
  }

  function VideoAfter(msgs: seq<Message>): VideoState {
    if msgs == [] then EmptyVideo()
    else
      var m := msgs[|msgs| - 1];
      VideoStep(VideoAfter(msgs[..|msgs| - 1]), m.opcode, m.body).state
  }

  lemma VideoStepIsApply(s: VideoState, m: Message)
    ensures var r := VideoStep(s, m.opcode, m.body);
            match VideoAccepted(s, m)
            case None => r.state == s && r.reply.Err?
            case Some(c) => VideoApply(s, c) == Some((r.state, VideoApply(s, c).value.1)) &&
                            r.reply == Ok(EncodeAnswer(VideoApply(s, c).value.1))
  {
    hide VideoApply, DecodeCall, EncodeAnswer;
  }

  // The backend as one finite map of sessions

  ghost predicate VideoAccepts(sessions: Objects<VideoSessionState>, c: Call) {
    match c
    case CreateDecodeSession(_, _, _) => true
    case DecodeVideoFrame(h, _) => Has(sessions, h)
    case DestroySession(h) => Has(sessions, h)
    case _ => false
  }

  function OneMoreFrame(v: VideoSessionState): VideoSessionState {
    v.(frames := Min(v.frames + 1, U32_MAX))
  }

  /** What an accepted call does to the sessions, and what it answers. */
  ghost predicate VideoEffects(m: Objects<VideoSessionState>, c: Call, m': Objects<VideoSessionState>, a: Answer) {
    match c
    case CreateDecodeSession(codec, width, height) =>
      a.Created? && Minted(m, KIND_VIDEO_SESSION, VideoSessionState(codec, width, height, 0), a.handle, m')
    case DecodeVideoFrame(h, _) =>
      && Has(m, h)
      && a == FrameIndex(m[h.Id()].value.frames)
      && Rebound(m, h, OneMoreFrame(m[h.Id()].value), m')
    case DestroySession(h) => a.Ack? && m' == m - {h.Id()}
    case _ => false
  }

  /** The video backend accepts creations always, and decodes and destructions of live sessions only. */
  lemma {:induction false} VideoAcceptsExactly(s: VideoState, c: Call)
    ensures VideoApply(s, c).Some? <==> VideoAccepts(Contents(s.sessions), c)
  {
    hide Contents, Get, Insert, Update, Remove;
    match c
    case DecodeVideoFrame(h, _) => LivesIffHas(s.sessions, h);
    case DestroySession(h) => LivesIffHas(s.sessions, h);
    case _ =>
  }

  /** Every accepted call refines its effect on the map and keeps the table invariant. */
  lemma {:induction false} VideoRefinesMap(s: VideoState, c: Call)
    requires Valid(s.sessions) && VideoApply(s, c).Some? && Fits32(VideoApply(s, c).value.0.sessions)
    ensures var (s', a) := VideoApply(s, c).value;
            && Valid(s'.sessions)
            && Kept(FramesEvolve, s.sessions, s'.sessions)
            && VideoEffects(Contents(s.sessions), c, Contents(s'.sessions), a)
  {
    hide Contents, StageOf, Get, Insert, Update, Remove, Valid, Kept;
    match c
    case CreateDecodeSession(codec, width, height) =>
      InsertMints(FramesEvolve, s.sessions, KIND_VIDEO_SESSION, VideoSessionState(codec, width, height, 0));
    case DecodeVideoFrame(h, _) =>
      LivesIffHas(s.sessions, h);
      var v := Get(s.sessions, h).value;
      UpdateRebinds(FramesEvolve, s.sessions, h, v.(frames := SaturatingAdd32(v.frames, 1)));
    case DestroySession(h) => RemoveDrops(FramesEvolve, s.sessions, h);
    case _ =>
  }

  /** A rejected message changes nothing: a short body of a known opcode is the end of the buffer, all else an unknown opcode. */
  lemma {:induction false} VideoRejectionsAreExact(s: VideoState, m: Message)
    requires VideoAccepted(s, m).None?
    ensures var short := OpcodeApi(m.opcode) == API_VIDEO && Widths(m.opcode).Some?
                         && |m.body| < TotalWidth(Widths(m.opcode).value);
            VideoStep(s, m.opcode, m.body) == StepResult(s, Err(if short then UnexpectedEof else UnknownOpcode(m.opcode)))
  {
    hide VideoApply, EncodeAnswer, Widths, OpcodeApi;
    CallAccepts(m.opcode, m.body);
  }

  /** In every reachable state the table invariant holds. */
  lemma {:induction false} VideoReachableValid(msgs: seq<Message>, n: nat)
    requires n <= |msgs| && Fits32(VideoAfter(msgs[..n]).sessions)
    ensures Valid(VideoAfter(msgs[..n]).sessions)
  {
    hide Valid, VideoAfter;
    FramesRun(msgs, n, ObjectId(0, 0));
  }

  /** A destroyed session is gone for good: whatever follows, its handle is never accepted again. */
  lemma {:induction false} DestroyedStaysGone(msgs: seq<Message>, m: nat, n: nat, h: Handle)
    requires m < n <= |msgs| && Fits32(VideoAfter(msgs[..n]).sessions)
    requires VideoAccepted(VideoAfter(msgs[..m]), msgs[m]) == Some(DestroySession(h))
    ensures VideoApply(VideoAfter(msgs[..n]), DestroySession(h)).None?
    ensures forall len :: VideoApply(VideoAfter(msgs[..n]), DecodeVideoFrame(h, len)).None?
    decreases n
  {
    hide Valid, VideoAfter, VideoStep, VideoApply, VideoAccepted, Contents, StageOf, Kept;
    SessionGone(msgs, m, n, h);
    ContentsAt(VideoAfter(msgs[..n]).sessions, h.Id());
    VideoAcceptsExactly(VideoAfter(msgs[..n]), DestroySession(h));
    forall len ensures VideoApply(VideoAfter(msgs[..n]), DecodeVideoFrame(h, len)).None? {
      VideoAcceptsExactly(VideoAfter(msgs[..n]), DecodeVideoFrame(h, len));
    }
  }

  lemma {:induction false} SessionGone(msgs: seq<Message>, m: nat, n: nat, h: Handle)
    requires m < n <= |msgs| && Fits32(VideoAfter(msgs[..n]).sessions)
    requires VideoAccepted(VideoAfter(msgs[..m]), msgs[m]) == Some(DestroySession(h))
    ensures StageOf(VideoAfter(msgs[..n]).sessions, h.Id()) == Gone
    decreases n
  {
    hide Valid, VideoAfter, VideoStep, VideoApply, Contents, StageOf;
    var s, t := VideoAfter(msgs[..n - 1]), VideoAfter(msgs[..n]);
    VideoAfterStep(msgs, n - 1);
    VideoGrows(s, msgs[n - 1]);
    VideoReachableValid(msgs, n - 1);
    VideoStepIsApply(s, msgs[n - 1]);
    if n == m + 1 {
      VideoRefinesMap(s, DestroySession(h));
      VideoAcceptsExactly(s, DestroySession(h));
      ContentsAt(s.sessions, h.Id());
      ContentsAt(t.sessions, h.Id());
      assert Rank(StageOf(s.sessions, h.Id())) <= Rank(StageOf(t.sessions, h.Id()));
    } else {
      SessionGone(msgs, m, n - 1, h);
      if VideoAccepted(s, msgs[n - 1]).Some? {
        VideoRefinesMap(s, VideoAccepted(s, msgs[n - 1]).value);
        assert Rank(StageOf(s.sessions, h.Id())) <= Rank(StageOf(t.sessions, h.Id()));
      }
    }
  }

  lemma VideoAfterStep(msgs: seq<Message>, n: nat)
    requires n < |msgs|
    ensures VideoAfter(msgs[..n + 1]) == VideoStep(VideoAfter(msgs[..n]), msgs[n].opcode, msgs[n].body).state
  {
    hide VideoStep;
    assert msgs[..n + 1][..n] == msgs[..n];
  }

  function DecodingBy(c: Option<Call>, id: ObjectId): nat {
    if c.Some? && c.value.DecodeVideoFrame? && c.value.session.Id() == id then 1 else 0
  }

  /** How many frames were decoded on `id` by the first `n` messages. */
  function Decodes(msgs: seq<Message>, n: nat, id: ObjectId): nat
    requires n <= |msgs|
  {
    if n == 0 then 0
    else Decodes(msgs, n - 1, id) + DecodingBy(VideoAccepted(VideoAfter(msgs[..n - 1]), msgs[n - 1]), id)
  }

  ghost predicate FramesMatch(t: Table<VideoSessionState>, id: ObjectId, count: nat) {
    && Valid(t)
    && (StageOf(t, id) == Unissued ==> count == 0)
    && (id in Contents(t) ==> Contents(t)[id].value.frames == Min(count, U32_MAX))
  }

  predicate FramesEvolve(v: VideoSessionState, v': VideoSessionState) {
    v'.(frames := v.frames) == v && v.frames <= v'.frames
  }

  lemma FramesStep(s: VideoState, c: Call, id: ObjectId, count: nat)
    requires VideoApply(s, c).Some? && Fits32(VideoApply(s, c).value.0.sessions)
    requires FramesMatch(s.sessions, id, count)
    ensures FramesMatch(VideoApply(s, c).value.0.sessions, id, count + DecodingBy(Some(c), id))
    ensures c.DecodeVideoFrame? && c.session.Id() == id ==>
              VideoApply(s, c).value.1 == FrameIndex(Min(count, U32_MAX))
    ensures c.CreateDecodeSession? ==>
              var a := VideoApply(s, c).value.1;
              a.Created? && (a.handle.Id() == id ==> count == 0)
  {
    hide Contents, StageOf, Get, Insert, Update, Remove, Valid;
    var t, t' := s.sessions, VideoApply(s, c).value.0.sessions;
    ContentsAt(t, id);
    match c
    case CreateDecodeSession(codec, width, height) =>
      var v := VideoSessionState(codec, width, height, 0);
      InsertMints(FramesEvolve, t, KIND_VIDEO_SESSION, v);
      InsertStages(t, KIND_VIDEO_SESSION, v);
      StageLater(FramesEvolve, t, t', id);
    case DecodeVideoFrame(session, _) =>
      LivesIffHas(t, session);
      var v := Get(t, session).value;
      UpdateRebinds(FramesEvolve, t, session, v.(frames := SaturatingAdd32(v.frames, 1)));
      StageLater(FramesEvolve, t, t', id);
    case DestroySession(session) =>
      RemoveDrops(FramesEvolve, t, session);
      StageLater(FramesEvolve, t, t', id);
    case _ =>
  }

  lemma VideoGrows(s: VideoState, m: Message)
    ensures |s.sessions.slots| <= |VideoStep(s, m.opcode, m.body).state.sessions.slots|
  {
    hide DecodeCall, EncodeAnswer;
  }

  lemma {:induction false} FramesRun(msgs: seq<Message>, n: nat, id: ObjectId)
    requires n <= |msgs| && Fits32(VideoAfter(msgs[..n]).sessions)
    ensures FramesMatch(VideoAfter(msgs[..n]).sessions, id, Decodes(msgs, n, id))
  {
    hide FramesMatch, VideoStep, VideoAccepted, DecodingBy;
    if n == 0 {
      FramesStart(id);
    } else {
      var s, m := VideoAfter(msgs[..n - 1]), msgs[n - 1];
      VideoAfterStep(msgs, n - 1);
      VideoGrows(s, m);
      FramesRun(msgs, n - 1, id);
      VideoStepIsApply(s, m);
      NoDecoding(id);
      if VideoAccepted(s, m).Some? {
        FramesStep(s, VideoAccepted(s, m).value, id, Decodes(msgs, n - 1, id));
      }
    }
  }

  lemma FramesStart(id: ObjectId)
    ensures FramesMatch(EmptyVideo().sessions, id, 0)
  {
    hide Valid, Contents;
    EmptyValid<VideoSessionState>();
  }

  lemma NoDecoding(id: ObjectId)
    ensures DecodingBy(None, id) == 0
  {
  }

  /**
   The k-th accepted DECODE_FRAME on a session, counting from 0, answers min(k, 2^32 - 1); a session
   just created has none behind it, whichever slot it reuses.
   */
  lemma {:induction false} DecodeReturnsFrameNumber(msgs: seq<Message>, n: nat)
    requires n < |msgs| && Fits32(VideoAfter(msgs[..n + 1]).sessions)
    ensures var s := VideoAfter(msgs[..n]);
            var r := VideoStep(s, msgs[n].opcode, msgs[n].body);
            match VideoAccepted(s, msgs[n])
            case Some(DecodeVideoFrame(session, _)) =>
              r.reply == Ok(LittleEndian(4, Min(Decodes(msgs, n, session.Id()), U32_MAX)))
            case Some(CreateDecodeSession(_, _, _)) =>
              exists h: Handle :: r.reply == Ok(EncodeHandle(h)) && Decodes(msgs, n + 1, h.Id()) == 0
            case _ => true
  {
    hide FramesMatch, VideoStep, VideoAccepted, Decodes, VideoApply;
    var s, m := VideoAfter(msgs[..n]), msgs[n];
    VideoAfterStep(msgs, n);
    VideoGrows(s, m);
    VideoStepIsApply(s, m);
    match VideoAccepted(s, m)
    case Some(DecodeVideoFrame(session, len)) =>
      FramesRun(msgs, n, session.Id());
      FramesStep(s, DecodeVideoFrame(session, len), session.Id(), Decodes(msgs, n, session.Id()));
    case Some(CreateDecodeSession(codec, width, height)) =>
      var c := CreateDecodeSession(codec, width, height);
      FramesRun(msgs, n, ObjectId(0, 0));
      FramesStep(s, c, ObjectId(0, 0), Decodes(msgs, n, ObjectId(0, 0)));
      var h := VideoApply(s, c).value.1.handle;
      FramesRun(msgs, n, h.Id());
      FramesStep(s, c, h.Id(), Decodes(msgs, n, h.Id()));
      DecodesStep(msgs, n, h.Id());
      assert VideoStep(s, m.opcode, m.body).reply == Ok(EncodeHandle(h));
    case _ =>
  }

  lemma DecodesStep(msgs: seq<Message>, n: nat, id: ObjectId)
    requires n < |msgs|
    ensures Decodes(msgs, n + 1, id) == Decodes(msgs, n, id) + DecodingBy(VideoAccepted(VideoAfter(msgs[..n]), msgs[n]), id)
  {
  }
}
