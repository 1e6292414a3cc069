/** The session as an object over backend objects, tied to `Sessions.HandleFrame`. */
module SessionObjects {
  import opened Prelude
  import opened Protocol
  import opened Backends
  import opened BackendObjects
  import Sessions

  /** A boxed backend; the session owns it. */
  datatype BackendObject = VulkanObject(vk: VulkanBackend) | VideoObject(video: VideoBackend) {
    function Api(): u8 {
      match this
      case VulkanObject(_) => API_VULKAN
      case VideoObject(_) => API_VIDEO
    }

    ghost function Owned(): object {
      match this
      case VulkanObject(b) => b
      case VideoObject(b) => b
    }

    ghost function Model(): BackendState
      reads Owned()
    {
      match this
      case VulkanObject(b) => Vulkan(b.Model())
      case VideoObject(b) => Video(b.Model())
    }
  }

  class SessionObject {
    const sessionId: u64
    var maxFrameBody: u32
    var handshook: bool
    var nextSeq: u64
    var backends: map<u8, BackendObject>

    ghost function Repr(): set<object>
      reads this
    {
      set api | api in backends :: backends[api].Owned()
    }

    /** As long as neither the session nor a backend of it is written, it stays as it is. */
    twostate lemma Undisturbed()
      requires unchanged(this) && unchanged(old(Repr()))
      ensures Model() == old(Model()) && Repr() == old(Repr()) && Valid() == old(Valid())
    {
    }

    /** Only backends are owned, so no transport or registry is. */
    lemma OwnsBackends(o: object)
      requires o in Repr()
      ensures o is VulkanBackend || o is VideoBackend
    {
      var api :| api in backends && backends[api].Owned() == o;
      match backends[api]
      case VulkanObject(b) =>
      case VideoObject(b) =>
    }

    ghost predicate Valid()
      reads this
    {
      forall api :: api in backends ==> backends[api].Api() == api
    }

    ghost function States(): map<u8, BackendState>
      reads this, Repr()
    {
      map api | api in backends :: backends[api].Model()
    }

    ghost function Model(): Sessions.Session<BackendState>
      reads this, Repr()
    {
      Sessions.Session(sessionId, maxFrameBody, handshook, nextSeq, States())
    }

    /** Writing the session's own scalar fields leaves every backend as it was. */
    twostate lemma ScalarsApart()
      requires backends == old(backends)
      requires forall b: VulkanBackend | VulkanObject(b) in backends.Values :: unchanged(b)
      requires forall b: VideoBackend | VideoObject(b) in backends.Values :: unchanged(b)
      ensures States() == old(States())
    {
      forall api | api in backends ensures backends[api].Model() == old(backends[api].Model()) {
        assert backends[api] in backends.Values;
        match backends[api]
        case VulkanObject(b) =>
        case VideoObject(b) =>
      }
    }

    constructor (id: u64)
      ensures Valid() && Repr() == {} && Model() == Sessions.New(id)
    {
      sessionId, maxFrameBody, handshook, nextSeq, backends := id, DEFAULT_MAX_FRAME_BODY, false, 1, map[];
    }

    /** At most one backend per namespace: the one registered last is the one that gets called. */
    method Register(b: BackendObject)
      requires Valid()
      modifies this
      ensures Valid() && Repr() <= old(Repr()) + {b.Owned()}
      ensures var m := old(Model());
              Model() == m.(backends := m.backends[b.Api() := b.Model()])
    {
      hide VulkanBackend.Model, VideoBackend.Model;
      backends := backends[b.Api() := b];
    }

    method TakeSeq() returns (n: u64)
      modifies this`nextSeq
      ensures n == old(nextSeq) && nextSeq == WrappingNext64(old(nextSeq)) && States() == old(States())
    {
      n := nextSeq;
      nextSeq := WrappingNext64(nextSeq);
      ScalarsApart();
    }

    method Reply(opcode: u32, reqId: u32, body: seq<byte>) returns (frame: seq<byte>)
      modifies this`nextSeq
      ensures StepResult(Model(), Ok(frame)) == Sessions.Reply(old(Model()), opcode, reqId, body)
    {
      var seqNo := TakeSeq();
      frame := WriteFrame(FrameHeader(PROTOCOL_MAJOR, 0, Response, opcode, reqId, seqNo, Truncate32(|body|)), body);
      ScalarsApart();
    }

    method Greet(reqId: u32, body: seq<byte>) returns (r: Sessions.Outcome)
      requires Valid()
      modifies this
      ensures Valid() && Repr() == old(Repr())
      ensures StepResult(Model(), r) == Sessions.Greet(old(Model()), reqId, body)
    {
      hide DecodeHello, EncodeFrame, EncodeWelcome;
      var hello := DecodeHello(body);
      if hello.Err? {
        return Err(hello.error);
      }
      if hello.value.major != PROTOCOL_MAJOR {
        return Err(BadVersion(hello.value.major, hello.value.minor));
      }
      maxFrameBody := if hello.value.maxFrameBody <= DEFAULT_MAX_FRAME_BODY then hello.value.maxFrameBody else DEFAULT_MAX_FRAME_BODY;
      handshook := true;
      ScalarsApart();
      var welcome := Welcome(PROTOCOL_MAJOR, PROTOCOL_MINOR, 0, maxFrameBody, sessionId);
      var reply := Reply(WELCOME, reqId, EncodeWelcome(welcome));
      r := Ok(reply);
    }

    /** Hands the call to the registered backend object, which changes in place. */
    method Route(opcode: u32, reqId: u32, body: seq<byte>) returns (r: Sessions.Outcome)
      requires Valid()
      modifies this, Repr()
      ensures Valid() && Repr() == old(Repr())
      ensures StepResult(Model(), r) == Sessions.Route(BackendStep, old(Model()), opcode, reqId, body)
    {
      hide VkStep, VideoStep, EncodeFrame;
      var api := OpcodeApi(opcode);
      if api !in backends {
        return Err(UnknownOpcode(opcode));
      }
      ghost var before := Model();
      var resp: Sessions.Outcome;
      match backends[api] {
        case VulkanObject(b) => resp := b.Handle(opcode, body);
        case VideoObject(b) => resp := b.Handle(opcode, body);
      }
      assert Model() == before.(backends := before.backends[api := backends[api].Model()]);
      if resp.Err? {
        return Err(resp.error);
      }
      var reply := Reply(opcode, reqId, resp.value);
      r := Ok(reply);
    }

    method Handle(frame: seq<byte>) returns (r: Sessions.Outcome)
      requires Valid()
      modifies this, Repr()
      ensures Valid() && Repr() == old(Repr())
      ensures StepResult(Model(), r) == Sessions.HandleFrame(BackendStep, old(Model()), frame)
    {
      hide Sessions.Greet, Sessions.Route, Sessions.Reply, DecodeFrame, BackendStep;
      var f := ReadFrame(frame);
      if f.Err? {
        return Err(f.error);
      }
      var h, body := f.value.header, f.value.body;
      if h.bodyLen > maxFrameBody {
        return Err(FrameTooLarge(h.bodyLen));
      }
      if h.bodyLen != |body| {
        return Err(BodyLenMismatch(h.bodyLen, |body|));
      }
      if h.opcode == HELLO {
        r := Greet(h.reqId, body);
      } else if h.opcode == NOOP {
        var reply := Reply(NOOP, h.reqId, []);
        r := Ok(reply);
      } else {
        r := Route(h.opcode, h.reqId, body);
      }
    }
  }
}
