/** The backends of a served session: the runs they go through are the runs of the calls routed to them. */
module SessionRuns {
  import opened Prelude
  import opened Handles
  import opened Protocol
  import opened Backends
  import opened ObjectGraphs
  import opened VulkanRuns
  import opened VideoRuns
  import opened Sessions

  /** What one frame makes the session hand to the backend of `api`: one message, or nothing. */
  function RoutedBy(api: u8, s: Session<BackendState>, frame: seq<byte>): seq<Message> {
    match DecodeFrame(frame)
    case Err(_) => []
    case Ok(f) =>
      if f.header.bodyLen > s.maxFrameBody || f.header.bodyLen != |f.body| || OpcodeApi(f.header.opcode) != api then []
      else [Message(f.header.opcode, f.body)]
  }

  /** What a run of frames hands to it. */
  function Routed(api: u8, s: Session<BackendState>, frames: seq<seq<byte>>): seq<Message>
    decreases |frames|
  {
    if frames == [] then []
    else RoutedBy(api, s, frames[0]) + Routed(api, HandleFrame(BackendStep, s, frames[0]).state, frames[1..])
  }

  lemma OwnOpcodes()
    ensures OpcodeApi(HELLO) == OpcodeApi(NOOP) == 0
  {
  }

  lemma {:induction false} AfterMore(msgs: seq<Message>, m: Message)
    ensures After(msgs + [m]) == VkStep(After(msgs), m.opcode, m.body).state
    ensures VideoAfter(msgs + [m]) == VideoStep(VideoAfter(msgs), m.opcode, m.body).state
  {
    hide VkStep, VideoStep;
    assert (msgs + [m])[..|msgs|] == msgs;
  }

  /** One frame changes a backend as the message it routes there, if any, does. */
  lemma FrameRoutes(api: u8, s: Session<BackendState>, frame: seq<byte>)
    requires api in s.backends && api != 0
    ensures var s' := HandleFrame(BackendStep, s, frame).state;
            var routed := RoutedBy(api, s, frame);
            && api in s'.backends
            && s'.backends[api] == if routed == [] then s.backends[api]
                                   else BackendStep(s.backends[api], routed[0].opcode, 0, routed[0].body).state
  {
    hide DecodeFrame, VkStep, VideoStep, DecodeHello, EncodeWelcome, ReplyFrame, OpcodeApi;
    OwnOpcodes();
  }

  /** The Vulkan backend of a session goes through the run of exactly the messages routed to it. */
  lemma {:induction false} VulkanFollowsRouted(s: Session<BackendState>, frames: seq<seq<byte>>, before: seq<Message>)
    requires API_VULKAN in s.backends && s.backends[API_VULKAN] == Vulkan(After(before))
    ensures var s' := HandleAll(BackendStep, s, frames).state;
            && API_VULKAN in s'.backends
            && s'.backends[API_VULKAN] == Vulkan(After(before + Routed(API_VULKAN, s, frames)))
    decreases |frames|
  {
    hide HandleFrame, RoutedBy, After, VkStep;
    if frames == [] {
      assert before + [] == before;
    } else {
      var s1 := HandleFrame(BackendStep, s, frames[0]).state;
      var routed, rest := RoutedBy(API_VULKAN, s, frames[0]), Routed(API_VULKAN, s1, frames[1..]);
      FrameRoutes(API_VULKAN, s, frames[0]);
      AtMostOne(API_VULKAN, s, frames[0]);
      assert before + (routed + rest) == before + routed + rest;
      if routed == [] {
        assert before + routed == before;
      } else {
        AfterMore(before, routed[0]);
      }
      VulkanFollowsRouted(s1, frames[1..], before + routed);
    }
  }

  /** So does the video backend. */
  lemma {:induction false} VideoFollowsRouted(s: Session<BackendState>, frames: seq<seq<byte>>, before: seq<Message>)
    requires API_VIDEO in s.backends && s.backends[API_VIDEO] == Video(VideoAfter(before))
    ensures var s' := HandleAll(BackendStep, s, frames).state;
            && API_VIDEO in s'.backends
            && s'.backends[API_VIDEO] == Video(VideoAfter(before + Routed(API_VIDEO, s, frames)))
    decreases |frames|
  {
    hide HandleFrame, RoutedBy, VideoAfter, VideoStep;
    if frames == [] {
      assert before + [] == before;
    } else {
      var s1 := HandleFrame(BackendStep, s, frames[0]).state;
      var routed, rest := RoutedBy(API_VIDEO, s, frames[0]), Routed(API_VIDEO, s1, frames[1..]);
      FrameRoutes(API_VIDEO, s, frames[0]);
      AtMostOne(API_VIDEO, s, frames[0]);
      assert before + (routed + rest) == before + routed + rest;
      if routed == [] {
        assert before + routed == before;
      } else {
        AfterMore(before, routed[0]);
      }
      VideoFollowsRouted(s1, frames[1..], before + routed);
    }
  }

  lemma AtMostOne(api: u8, s: Session<BackendState>, frame: seq<byte>)
    ensures |RoutedBy(api, s, frame)| <= 1
    ensures RoutedBy(api, s, frame) != [] ==> RoutedBy(api, s, frame) == [RoutedBy(api, s, frame)[0]]
  {
    hide DecodeFrame;
  }

  /**
   Whatever frames a session is handed from its start, its Vulkan backend is in the state after the
   messages routed to it, and there all recorded parents resolve and all references were issued; so
   every theorem about runs of messages holds of it.
   */
  lemma {:induction false} ServedVulkanIsSafe(s: Session<BackendState>, frames: seq<seq<byte>>)
    requires API_VULKAN in s.backends && s.backends[API_VULKAN] == Vulkan(EmptyVk())
    ensures var s' := HandleAll(BackendStep, s, frames).state;
            && API_VULKAN in s'.backends
            && s'.backends[API_VULKAN] == Vulkan(After(Routed(API_VULKAN, s, frames)))
            && (VkBounded(s'.backends[API_VULKAN].vk) ==> Safe(s'.backends[API_VULKAN].vk))
  {
    hide HandleAll, Routed, Safe, VkBounded;
    var msgs := Routed(API_VULKAN, s, frames);
    assert [] + msgs == msgs && msgs[..|msgs|] == msgs;
    VulkanFollowsRouted(s, frames, []);
    ReachableSafe(msgs, |msgs|);
  }

  /** The frame counters of a session's video backend count the decodes routed to it. */
  lemma {:induction false} ServedVideoCounts(s: Session<BackendState>, frames: seq<seq<byte>>, id: ObjectId)
    requires API_VIDEO in s.backends && s.backends[API_VIDEO] == Video(EmptyVideo())
    ensures var s' := HandleAll(BackendStep, s, frames).state;
            var msgs := Routed(API_VIDEO, s, frames);
            && API_VIDEO in s'.backends
            && s'.backends[API_VIDEO] == Video(VideoAfter(msgs))
            && (Fits32(s'.backends[API_VIDEO].video.sessions) ==>
                  FramesMatch(s'.backends[API_VIDEO].video.sessions, id, Decodes(msgs, |msgs|, id)))
  {
    hide HandleAll, Routed, FramesMatch, Decodes;
    var msgs := Routed(API_VIDEO, s, frames);
    assert [] + msgs == msgs && msgs[..|msgs|] == msgs;
    VideoFollowsRouted(s, frames, []);
    if Fits32(VideoAfter(msgs).sessions) {
      FramesRun(msgs, |msgs|, id);
    }
  }
}
