/** The Vulkan and video backends as values: typed calls, and the byte-level step around them. */
module Backends {
  import opened Prelude
  import opened Handles
  import opened Tables
  import opened Wire
  import opened Protocol
  import opened Bodies

  const KIND_INSTANCE: u8 := 1
  const KIND_PHYSICAL_DEVICE: u8 := 2
  const KIND_DEVICE: u8 := 3
  const KIND_QUEUE: u8 := 4
  const KIND_DEVICE_MEMORY: u8 := 5
  const KIND_BUFFER: u8 := 6
  const KIND_COMMAND_POOL: u8 := 7
  const KIND_COMMAND_BUFFER: u8 := 8
  const KIND_VIDEO_SESSION: u8 := 60

  datatype InstanceState = InstanceState(created: bool)
  datatype PhysDevState = PhysDevState(parent: Handle)
  datatype DeviceState = DeviceState(physicalDevice: Handle)
  datatype QueueState = QueueState(device: Handle, family: u32, index: u32)
  datatype MemoryState = MemoryState(device: Handle, size: u64)
  datatype Binding = Binding(memory: Handle, offset: u64)
  datatype BufferState = BufferState(device: Handle, size: u64, usage: u32, bound: Option<Binding>)
  datatype CommandPoolState = CommandPoolState(device: Handle, family: u32)
  datatype CommandBufferState = CommandBufferState(pool: Handle, recorded: u32)
  datatype VideoSessionState = VideoSessionState(codec: u32, width: u32, height: u32, frames: u32)

  datatype VkState = VkState(
    instances: Table<InstanceState>,
    physicalDevices: Table<PhysDevState>,
    devices: Table<DeviceState>,
    queues: Table<QueueState>,
    memories: Table<MemoryState>,
    buffers: Table<BufferState>,
    commandPools: Table<CommandPoolState>,
    commandBuffers: Table<CommandBufferState>
  )

  datatype VideoState = VideoState(sessions: Table<VideoSessionState>)

  function EmptyVk(): VkState {
    VkState(Empty(), Empty(), Empty(), Empty(), Empty(), Empty(), Empty(), Empty())
  }

  function EmptyVideo(): VideoState {
    VideoState(Empty())
  }

  /** What a successful call answers; every other call of the API is just acknowledged. */
  datatype Answer = Created(handle: Handle) | Devices(handles: seq<Handle>) | FrameIndex(index: u32) | Ack

  function EncodeAnswer(a: Answer): seq<byte> {
    match a
    case Created(h) => EncodeHandle(h)
    case Devices(hs) => EncodeDevices(hs)
    case FrameIndex(i) => LittleEndian(4, i)
    case Ack => []
  }

  predicate Lives<T>(t: Table<T>, h: Handle) {
    Get(t, h).Some?
  }

  /** A Vulkan call on the object tables; `None` when the backend turns it down. */
  function VkApply(s: VkState, c: Call): Option<(VkState, Answer)> {
    match c
    case CreateInstance(_) =>
      var r := Insert(s.instances, KIND_INSTANCE, InstanceState(true));
      Some((s.(instances := r.table), Created(r.handle)))
    case EnumeratePhysicalDevices(instance) =>
      if Lives(s.instances, instance) && Get(s.instances, instance).value.created then
        var r := Insert(s.physicalDevices, KIND_PHYSICAL_DEVICE, PhysDevState(instance));
        Some((s.(physicalDevices := r.table), Devices([r.handle])))
      else None
    case CreateDevice(physicalDevice) =>
      if Lives(s.physicalDevices, physicalDevice) then
        var r := Insert(s.devices, KIND_DEVICE, DeviceState(physicalDevice));
        Some((s.(devices := r.table), Created(r.handle)))
      else None
    case GetDeviceQueue(device, family, index) =>
      if Lives(s.devices, device) then
        var r := Insert(s.queues, KIND_QUEUE, QueueState(device, family, index));
        Some((s.(queues := r.table), Created(r.handle)))
      else None
    case AllocateMemory(device, size) =>
      if Lives(s.devices, device) then
        var r := Insert(s.memories, KIND_DEVICE_MEMORY, MemoryState(device, size));
        Some((s.(memories := r.table), Created(r.handle)))
      else None
    case CreateBuffer(device, size, usage) =>
      if Lives(s.devices, device) then
        var r := Insert(s.buffers, KIND_BUFFER, BufferState(device, size, usage, None));
        Some((s.(buffers := r.table), Created(r.handle)))
      else None
    case BindBufferMemory(buffer, memory, offset) =>
      if Lives(s.memories, memory) && Lives(s.buffers, buffer) && Get(s.buffers, buffer).value.bound.None? then
        var b := Get(s.buffers, buffer).value.(bound := Some(Binding(memory, offset)));
        Some((s.(buffers := Update(s.buffers, buffer, b)), Ack))
      else None
    case CreateCommandPool(device, family) =>
      if Lives(s.devices, device) then
        var r := Insert(s.commandPools, KIND_COMMAND_POOL, CommandPoolState(device, family));
        Some((s.(commandPools := r.table), Created(r.handle)))
      else None
    case AllocateCommandBuffer(pool) =>
      if Lives(s.commandPools, pool) then
        var r := Insert(s.commandBuffers, KIND_COMMAND_BUFFER, CommandBufferState(pool, 0));
        Some((s.(commandBuffers := r.table), Created(r.handle)))
      else None
    case QueueSubmit(queue, commandBuffer) =>
      if Lives(s.queues, queue) && Lives(s.commandBuffers, commandBuffer) then Some((s, Ack)) else None
    case CmdCopyBuffer(commandBuffer, src, dst, _) =>
      if Lives(s.buffers, src) && Lives(s.buffers, dst) then Record(s, commandBuffer) else None
    case CmdDraw(commandBuffer, _, _) => Record(s, commandBuffer)
    case DestroyBuffer(buffer) =>
      if Lives(s.buffers, buffer) then Some((s.(buffers := Remove(s.buffers, buffer).0), Ack)) else None
    case FreeMemory(memory) =>
      if Lives(s.memories, memory) then Some((s.(memories := Remove(s.memories, memory).0), Ack)) else None
    case DestroyCommandPool(pool) =>
      if Lives(s.commandPools, pool) then Some((s.(commandPools := Remove(s.commandPools, pool).0), Ack)) else None
    case _ => None
  }

  /** Bumps a live command buffer's saturating count of recorded commands. */
  function Record(s: VkState, commandBuffer: Handle): Option<(VkState, Answer)> {
    match Get(s.commandBuffers, commandBuffer)
    case None => None
    case Some(cb) =>
      var cb' := cb.(recorded := SaturatingAdd32(cb.recorded, 1));
      Some((s.(commandBuffers := Update(s.commandBuffers, commandBuffer, cb')), Ack))
  }

  function VideoApply(s: VideoState, c: Call): Option<(VideoState, Answer)> {
    match c
    case CreateDecodeSession(codec, width, height) =>
      var r := Insert(s.sessions, KIND_VIDEO_SESSION, VideoSessionState(codec, width, height, 0));
      Some((VideoState(r.table), Created(r.handle)))
    case DecodeVideoFrame(session, _) =>
      if Lives(s.sessions, session) then
        var v := Get(s.sessions, session).value;
        var v' := v.(frames := SaturatingAdd32(v.frames, 1));
        Some((VideoState(Update(s.sessions, session, v')), FrameIndex(v.frames)))
      else None
    case DestroySession(session) =>
      if Lives(s.sessions, session) then Some((VideoState(Remove(s.sessions, session).0), Ack)) else None
    case _ => None
  }

  // The byte-level step

  datatype StepResult<S> = StepResult(state: S, reply: Result<seq<byte>, ProtocolError>)

  /** Decode the body, apply the call, encode the answer; anything the backend rejects is an unknown opcode. */
  function VkStep(s: VkState, opcode: u32, body: seq<byte>): StepResult<VkState> {
    if OpcodeApi(opcode) != API_VULKAN then StepResult(s, Err(UnknownOpcode(opcode)))
    else
      match DecodeCall(opcode, body)
      case Err(e) => StepResult(s, Err(e))
      case Ok(c) =>
        match VkApply(s, c)
        case None => StepResult(s, Err(UnknownOpcode(opcode)))
        case Some((s', a)) => StepResult(s', Ok(EncodeAnswer(a)))
  }

  function VideoStep(s: VideoState, opcode: u32, body: seq<byte>): StepResult<VideoState> {
    if OpcodeApi(opcode) != API_VIDEO then StepResult(s, Err(UnknownOpcode(opcode)))
    else
      match DecodeCall(opcode, body)
      case Err(e) => StepResult(s, Err(e))
      case Ok(c) =>
        match VideoApply(s, c)
        case None => StepResult(s, Err(UnknownOpcode(opcode)))
        case Some((s', a)) => StepResult(s', Ok(EncodeAnswer(a)))
  }

  /** The backends a session may hold. */
  datatype BackendState = Vulkan(vk: VkState) | Video(video: VideoState)

  function BackendStep(b: BackendState, opcode: u32, reqId: u32, body: seq<byte>): StepResult<BackendState> {
    match b
    case Vulkan(s) =>
      var r := VkStep(s, opcode, body);
      StepResult(Vulkan(r.state), r.reply)
    case Video(s) =>
      var r := VideoStep(s, opcode, body);
      StepResult(Video(r.state), r.reply)
  }
}
