/** The two backends as objects whose table fields change in place, tied to the byte-level steps. */
module BackendObjects {
  import opened Prelude
  import opened Handles
  import opened Tables
  import opened Wire
  import opened Protocol
  import opened Bodies
  import opened Backends

  class VulkanBackend {
    var instances: Table<InstanceState>
    var physicalDevices: Table<PhysDevState>
    var devices: Table<DeviceState>
    var queues: Table<QueueState>
    var memories: Table<MemoryState>
    var buffers: Table<BufferState>
    var commandPools: Table<CommandPoolState>
    var commandBuffers: Table<CommandBufferState>

    ghost function Model(): VkState
      reads this
    {
      VkState(instances, physicalDevices, devices, queues, memories, buffers, commandPools, commandBuffers)
    }

    constructor ()
      ensures Model() == EmptyVk()
    {
      instances, physicalDevices, devices, queues := Empty(), Empty(), Empty(), Empty();
      memories, buffers, commandPools, commandBuffers := Empty(), Empty(), Empty(), Empty();
    }

    /** The creation arms: check the parent, then mint a handle of the right kind. */
    method Create(c: Call) returns (a: Option<Answer>)
      requires c.CreateInstance? || c.EnumeratePhysicalDevices? || c.CreateDevice? || c.GetDeviceQueue?
            || c.AllocateMemory? || c.CreateBuffer? || c.CreateCommandPool? || c.AllocateCommandBuffer?
      modifies this
      ensures VkApply(old(Model()), c) == if a.None? then None else Some((Model(), a.value))
      ensures a.None? ==> Model() == old(Model())
    {
      a := None;
      match c
      case CreateInstance(_) =>
        var r := Insert(instances, KIND_INSTANCE, InstanceState(true));
        instances, a := r.table, Some(Created(r.handle));
      case EnumeratePhysicalDevices(instance) =>
        var live := Get(instances, instance);
        if live.Some? && live.value.created {
          var r := Insert(physicalDevices, KIND_PHYSICAL_DEVICE, PhysDevState(instance));
          physicalDevices, a := r.table, Some(Devices([r.handle]));
        }
      case CreateDevice(physicalDevice) =>
        if Get(physicalDevices, physicalDevice).Some? {
          var r := Insert(devices, KIND_DEVICE, DeviceState(physicalDevice));
          devices, a := r.table, Some(Created(r.handle));
        }
      case AllocateCommandBuffer(pool) =>
        if Get(commandPools, pool).Some? {
          var r := Insert(commandBuffers, KIND_COMMAND_BUFFER, CommandBufferState(pool, 0));
          commandBuffers, a := r.table, Some(Created(r.handle));
        }
      case GetDeviceQueue(device, family, index) =>
        if Get(devices, device).Some? {
          var r := Insert(queues, KIND_QUEUE, QueueState(device, family, index));
          queues, a := r.table, Some(Created(r.handle));
        }
      case AllocateMemory(device, size) =>
        if Get(devices, device).Some? {
          var r := Insert(memories, KIND_DEVICE_MEMORY, MemoryState(device, size));
          memories, a := r.table, Some(Created(r.handle));
        }
      case CreateBuffer(device, size, usage) =>
        if Get(devices, device).Some? {
          var r := Insert(buffers, KIND_BUFFER, BufferState(device, size, usage, None));
          buffers, a := r.table, Some(Created(r.handle));
        }
      case CreateCommandPool(device, family) =>
        if Get(devices, device).Some? {
          var r := Insert(commandPools, KIND_COMMAND_POOL, CommandPoolState(device, family));
          commandPools, a := r.table, Some(Created(r.handle));
        }
    }

    /** `get_mut` on a command buffer and the saturating bump of its count. */
    method RecordCommand(commandBuffer: Handle) returns (ok: bool)
      modifies this`commandBuffers
      ensures Record(old(Model()), commandBuffer) == if ok then Some((Model(), Ack)) else None
      ensures !ok ==> Model() == old(Model())
    {
      var cb := Get(commandBuffers, commandBuffer);
      ok := cb.Some?;
      if ok {
        var bumped := cb.value.(recorded := SaturatingAdd32(cb.value.recorded, 1));
        commandBuffers := Update(commandBuffers, commandBuffer, bumped);
      }
    }

    /** The arms that change or remove an existing object and are just acknowledged. */
    method Acknowledge(c: Call) returns (ok: bool)
      requires c.BindBufferMemory? || c.QueueSubmit? || c.CmdCopyBuffer? || c.CmdDraw?
            || c.DestroyBuffer? || c.FreeMemory? || c.DestroyCommandPool?
      modifies this
      ensures VkApply(old(Model()), c) == if ok then Some((Model(), Ack)) else None
      ensures !ok ==> Model() == old(Model())
    {
      match c
      case BindBufferMemory(buffer, memory, offset) =>
        var b := Get(buffers, buffer);
        ok := Get(memories, memory).Some? && b.Some? && b.value.bound.None?;
        if ok {
          buffers := Update(buffers, buffer, b.value.(bound := Some(Binding(memory, offset))));
        }
      case QueueSubmit(queue, commandBuffer) =>
        ok := Get(queues, queue).Some? && Get(commandBuffers, commandBuffer).Some?;
      case CmdCopyBuffer(commandBuffer, src, dst, _) =>
        ok := Get(buffers, src).Some? && Get(buffers, dst).Some?;
        if ok {
          ok := RecordCommand(commandBuffer);
        }
      case CmdDraw(commandBuffer, _, _) =>
        ok := RecordCommand(commandBuffer);
      case DestroyBuffer(buffer) =>
        var (t, removed) := Remove(buffers, buffer);
        buffers, ok := t, removed.Some?;
      case FreeMemory(memory) =>
        var (t, removed) := Remove(memories, memory);
        memories, ok := t, removed.Some?;
      case DestroyCommandPool(pool) =>
        var (t, removed) := Remove(commandPools, pool);
        commandPools, ok := t, removed.Some?;
    }

    /** A rejected request of any kind leaves every table as it was. */
    method Handle(opcode: u32, body: seq<byte>) returns (r: Result<seq<byte>, ProtocolError>)
      modifies this
      ensures StepResult(Model(), r) == VkStep(old(Model()), opcode, body)
      ensures r.Err? ==> Model() == old(Model())
    {
      if OpcodeApi(opcode) != API_VULKAN {
        return Err(UnknownOpcode(opcode));
      }
      var decoded := ReadCall(opcode, body);
      if decoded.Err? {
        return Err(decoded.error);
      }
      var c := decoded.value;
      if c.CreateDecodeSession? || c.DecodeVideoFrame? || c.DestroySession? {
        r := Err(UnknownOpcode(opcode));
      } else if c.BindBufferMemory? || c.QueueSubmit? || c.CmdCopyBuffer? || c.CmdDraw?
                || c.DestroyBuffer? || c.FreeMemory? || c.DestroyCommandPool? {
        var ok := Acknowledge(c);
        r := if ok then Ok([]) else Err(UnknownOpcode(opcode));
      } else {
        var a := Create(c);
        r := if a.Some? then Ok(EncodeAnswer(a.value)) else Err(UnknownOpcode(opcode));
      }
    }
  }

  class VideoBackend {
    var sessions: Table<VideoSessionState>

    ghost function Model(): VideoState
      reads this
    {
      VideoState(sessions)
    }

    constructor ()
      ensures Model() == EmptyVideo()
    {
      sessions := Empty();
    }

    /** Answers with a session's current frame count, then advances it. */
    method Handle(opcode: u32, body: seq<byte>) returns (r: Result<seq<byte>, ProtocolError>)
      modifies this
      ensures StepResult(Model(), r) == VideoStep(old(Model()), opcode, body)
      ensures r.Err? ==> Model() == old(Model())
    {
      if OpcodeApi(opcode) != API_VIDEO {
        return Err(UnknownOpcode(opcode));
      }
      var decoded := ReadCall(opcode, body);
      if decoded.Err? {
        return Err(decoded.error);
      }
      r := Err(UnknownOpcode(opcode));
      match decoded.value
      case CreateDecodeSession(codec, width, height) =>
        var i := Insert(sessions, KIND_VIDEO_SESSION, VideoSessionState(codec, width, height, 0));
        sessions, r := i.table, Ok(EncodeHandle(i.handle));
      case DecodeVideoFrame(session, _) =>
        var v := Get(sessions, session);
        if v.Some? {
          var frameIndex := v.value.frames;
          sessions := Update(sessions, session, v.value.(frames := SaturatingAdd32(v.value.frames, 1)));
          r := Ok(LittleEndian(4, frameIndex));
        }
      case DestroySession(session) =>
        var (t, removed) := Remove(sessions, session);
        if removed.Some? {
          sessions, r := t, Ok([]);
        }
      case _ =>
    }
  }
}
