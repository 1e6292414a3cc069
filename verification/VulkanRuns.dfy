/** Every run of the Vulkan backend from empty: references, object identity and recorded counts. */
module VulkanRuns {
  import opened Prelude
  import opened Handles
  import opened Tables
  import opened TableInvariant
  import opened Wire
  import opened Protocol
  import opened Bodies
  import opened Backends
  import opened ObjectGraphs

  /** What the session hands to a backend. */
  datatype Message = Message(opcode: u32, body: seq<byte>)

  /** The call a message makes, when the backend accepts it in state `s`. */
  function Accepted(s: VkState, m: Message): Option<Call> {
    if OpcodeApi(m.opcode) != API_VULKAN then None
    else
      match DecodeCall(m.opcode, m.body)
      case Err(_) => None
      case Ok(c) => if VkApply(s, c).Some? then Some(c) else None
  }

  function After(msgs: seq<Message>): VkState {
    if msgs == [] then EmptyVk()
    else
      var m := msgs[|msgs| - 1];
      VkStep(After(msgs[..|msgs| - 1]), m.opcode, m.body).state
  }

  /** A message that is not accepted: a short body of a known opcode is the end of the buffer, all else an unknown opcode. */
  lemma {:induction false} RejectionsAreExact(s: VkState, m: Message)
    requires Accepted(s, m).None?
    ensures var short := OpcodeApi(m.opcode) == API_VULKAN && Widths(m.opcode).Some?
                         && |m.body| < TotalWidth(Widths(m.opcode).value);
            VkStep(s, m.opcode, m.body) == StepResult(s, Err(if short then UnexpectedEof else UnknownOpcode(m.opcode)))
  {
    hide VkApply, EncodeAnswer, Widths, OpcodeApi;
    CallAccepts(m.opcode, m.body);
  }

  /** A step is the accepted call's effect, or nothing at all. */
  lemma StepIsApply(s: VkState, m: Message)
    ensures var r := VkStep(s, m.opcode, m.body);
            match Accepted(s, m)
            case None => r.state == s && r.reply.Err?
            case Some(c) => VkApply(s, c) == Some((r.state, VkApply(s, c).value.1)) &&
                            r.reply == Ok(EncodeAnswer(VkApply(s, c).value.1))
  {
    hide VkApply, DecodeCall, EncodeAnswer;
  }

  lemma AfterStep(msgs: seq<Message>, n: nat)
    requires n < |msgs|
    ensures After(msgs[..n + 1]) == VkStep(After(msgs[..n]), msgs[n].opcode, msgs[n].body).state
  {
    hide VkStep;
    assert msgs[..n + 1][..n] == msgs[..n];
  }

  // Bounds

  ghost predicate NoSmaller(s: VkState, s': VkState) {
    && |s.instances.slots| <= |s'.instances.slots| && |s.physicalDevices.slots| <= |s'.physicalDevices.slots|
    && |s.devices.slots| <= |s'.devices.slots| && |s.queues.slots| <= |s'.queues.slots|
    && |s.memories.slots| <= |s'.memories.slots| && |s.buffers.slots| <= |s'.buffers.slots|
    && |s.commandPools.slots| <= |s'.commandPools.slots| && |s.commandBuffers.slots| <= |s'.commandBuffers.slots|
  }

  lemma InsertGrows<T>(t: Table<T>, kind: u8, value: T)
    ensures |t.slots| <= |Insert(t, kind, value).table.slots|
  {
  }

  lemma ApplyGrows(s: VkState, c: Call)
    requires VkApply(s, c).Some?
    ensures NoSmaller(s, VkApply(s, c).value.0)
  {
    hide Insert;
    match c
    case CreateInstance(_) => InsertGrows(s.instances, KIND_INSTANCE, InstanceState(true));
    case EnumeratePhysicalDevices(i) => InsertGrows(s.physicalDevices, KIND_PHYSICAL_DEVICE, PhysDevState(i));
    case CreateDevice(p) => InsertGrows(s.devices, KIND_DEVICE, DeviceState(p));
    case GetDeviceQueue(d, family, index) => InsertGrows(s.queues, KIND_QUEUE, QueueState(d, family, index));
    case AllocateMemory(d, size) => InsertGrows(s.memories, KIND_DEVICE_MEMORY, MemoryState(d, size));
    case CreateBuffer(d, size, usage) => InsertGrows(s.buffers, KIND_BUFFER, BufferState(d, size, usage, None));
    case CreateCommandPool(d, family) => InsertGrows(s.commandPools, KIND_COMMAND_POOL, CommandPoolState(d, family));
    case AllocateCommandBuffer(p) => InsertGrows(s.commandBuffers, KIND_COMMAND_BUFFER, CommandBufferState(p, 0));
    case _ =>
  }

  lemma {:induction false} RunGrows(msgs: seq<Message>, m: nat, n: nat)
    requires m <= n <= |msgs|
    ensures NoSmaller(After(msgs[..m]), After(msgs[..n]))
    decreases n
  {
    hide VkApply, VkStep;
    if m < n {
      var s := After(msgs[..n - 1]);
      RunGrows(msgs, m, n - 1);
      AfterStep(msgs, n - 1);
      StepIsApply(s, msgs[n - 1]);
      if Accepted(s, msgs[n - 1]).Some? {
        ApplyGrows(s, Accepted(s, msgs[n - 1]).value);
      }
    }
  }

  // References

  /** Every object of `m` records a parent that is in `parents`. */
  ghost predicate PointInto<T, P>(m: Objects<T>, parentOf: T -> Handle, parents: Objects<P>) {
    forall id :: id in m ==> Has(parents, parentOf(m[id].value))
  }

  function InstanceOf(v: PhysDevState): Handle { v.parent }
  function PhysicalDeviceOf(v: DeviceState): Handle { v.physicalDevice }
  function QueueDevice(v: QueueState): Handle { v.device }
  function MemoryDevice(v: MemoryState): Handle { v.device }
  function BufferDevice(v: BufferState): Handle { v.device }
  function PoolDevice(v: CommandPoolState): Handle { v.device }

  /** Every recorded parent is still there. */
  ghost predicate ParentsLive(g: Graph) {
    && PointInto(g.physicalDevices, InstanceOf, g.instances)
    && PointInto(g.devices, PhysicalDeviceOf, g.physicalDevices)
    && PointInto(g.queues, QueueDevice, g.devices)
    && PointInto(g.memories, MemoryDevice, g.devices)
    && PointInto(g.buffers, BufferDevice, g.devices)
    && PointInto(g.commandPools, PoolDevice, g.devices)
  }

  lemma MintedPoints<T, P>(m: Objects<T>, parentOf: T -> Handle, parents: Objects<P>, kind: u8, v: T, h: Handle, m': Objects<T>)
    requires PointInto(m, parentOf, parents) && Minted(m, kind, v, h, m') && Has(parents, parentOf(v))
    ensures PointInto(m', parentOf, parents)
  {
  }

  lemma MorePoints<T, P>(m: Objects<T>, parentOf: T -> Handle, parents: Objects<P>, kind: u8, v: P, h: Handle, parents': Objects<P>)
    requires PointInto(m, parentOf, parents) && Minted(parents, kind, v, h, parents')
    ensures PointInto(m, parentOf, parents')
  {
  }

  /** What a buffer is bound to and what a command buffer came from was issued once, live or not. */
  ghost predicate ReferencesIssued(s: VkState) {
    && (forall id :: id in Contents(s.buffers) && Contents(s.buffers)[id].value.bound.Some? ==>
          StageOf(s.memories, Contents(s.buffers)[id].value.bound.value.memory.Id()) != Unissued)
    && (forall id :: id in Contents(s.commandBuffers) ==>
          StageOf(s.commandPools, Contents(s.commandBuffers)[id].value.pool.Id()) != Unissued)
  }

  predicate MintsParent(c: Call) {
    c.CreateInstance? || c.EnumeratePhysicalDevices? || c.CreateDevice?
  }

  lemma NewParentsPoint(g: Graph, c: Call, g': Graph, a: Answer)
    requires MintsParent(c) && ParentsLive(g) && Accepts(g, c) && Effects(g, c, g', a)
    ensures ParentsLive(g')
  {
    hide PointInto, Minted, Rebound;
    match c
    case CreateInstance(_) =>
      MorePoints(g.physicalDevices, InstanceOf, g.instances, KIND_INSTANCE, InstanceState(true), a.handle, g'.instances);
    case EnumeratePhysicalDevices(i) =>
      var v, h := PhysDevState(i), a.handles[0];
      MintedPoints(g.physicalDevices, InstanceOf, g.instances, KIND_PHYSICAL_DEVICE, v, h, g'.physicalDevices);
      MorePoints(g.devices, PhysicalDeviceOf, g.physicalDevices, KIND_PHYSICAL_DEVICE, v, h, g'.physicalDevices);
    case CreateDevice(p) =>
      var v := DeviceState(p);
      MintedPoints(g.devices, PhysicalDeviceOf, g.physicalDevices, KIND_DEVICE, v, a.handle, g'.devices);
      MorePoints(g.queues, QueueDevice, g.devices, KIND_DEVICE, v, a.handle, g'.devices);
      MorePoints(g.memories, MemoryDevice, g.devices, KIND_DEVICE, v, a.handle, g'.devices);
      MorePoints(g.buffers, BufferDevice, g.devices, KIND_DEVICE, v, a.handle, g'.devices);
      MorePoints(g.commandPools, PoolDevice, g.devices, KIND_DEVICE, v, a.handle, g'.devices);
  }

  lemma ParentsStayLive(g: Graph, c: Call, g': Graph, a: Answer)
    requires ParentsLive(g) && Accepts(g, c) && Effects(g, c, g', a)
    ensures ParentsLive(g')
  {
    hide PointInto, Minted, Rebound;
    match c
    case CreateInstance(_) => NewParentsPoint(g, c, g', a);
    case EnumeratePhysicalDevices(_) => NewParentsPoint(g, c, g', a);
    case CreateDevice(_) => NewParentsPoint(g, c, g', a);
    case GetDeviceQueue(d, family, index) =>
      MintedPoints(g.queues, QueueDevice, g.devices, KIND_QUEUE, QueueState(d, family, index), a.handle, g'.queues);
    case AllocateMemory(d, size) =>
      MintedPoints(g.memories, MemoryDevice, g.devices, KIND_DEVICE_MEMORY, MemoryState(d, size), a.handle, g'.memories);
    case CreateBuffer(d, size, usage) =>
      MintedPoints(g.buffers, BufferDevice, g.devices, KIND_BUFFER, BufferState(d, size, usage, None), a.handle, g'.buffers);
    case CreateCommandPool(d, family) =>
      MintedPoints(g.commandPools, PoolDevice, g.devices, KIND_COMMAND_POOL, CommandPoolState(d, family), a.handle, g'.commandPools);
    case BindBufferMemory(b, _, _) => BindPoints(g, c, g', a);
    case DestroyBuffer(b) => FewerPoint(g.buffers, BufferDevice, g.devices, b.Id());
    case FreeMemory(m) => FewerPoint(g.memories, MemoryDevice, g.devices, m.Id());
    case DestroyCommandPool(p) => FewerPoint(g.commandPools, PoolDevice, g.devices, p.Id());
    case _ =>
  }

  lemma BindPoints(g: Graph, c: Call, g': Graph, a: Answer)
    requires c.BindBufferMemory? && Effects(g, c, g', a) && PointInto(g.buffers, BufferDevice, g.devices)
    ensures PointInto(g'.buffers, BufferDevice, g'.devices)
  {
  }

  lemma FewerPoint<T, P>(m: Objects<T>, parentOf: T -> Handle, parents: Objects<P>, id: ObjectId)
    requires PointInto(m, parentOf, parents)
    ensures PointInto(m - {id}, parentOf, parents)
  {
  }

  lemma BuffersStayIssued(s: VkState, c: Call)
    requires VkValid(s) && VkApply(s, c).Some? && VkBounded(VkApply(s, c).value.0) && ReferencesIssued(s)
    ensures ReferencesIssued(VkApply(s, c).value.0)
  {
    hide VkApply, Contents, StageOf, VkValid;
    VkAcceptsExactly(s, c);
    VkRefinesGraph(s, c);
    var (s', a) := VkApply(s, c).value;
    var g, g' := GraphOf(s), GraphOf(s');
    forall id | id in g'.buffers && g'.buffers[id].value.bound.Some?
      ensures StageOf(s'.memories, g'.buffers[id].value.bound.value.memory.Id()) != Unissued
    {
      var memory := g'.buffers[id].value.bound.value.memory.Id();
      assert Rank(StageOf(s.memories, memory)) <= Rank(StageOf(s'.memories, memory));
      if id in g.buffers && g.buffers[id].value.bound == g'.buffers[id].value.bound {
        assert StageOf(s.memories, memory) != Unissued;
      } else {
        assert c.BindBufferMemory? && c.memory.Id() == memory;
        ContentsAt(s.memories, memory);
      }
    }
    forall id | id in g'.commandBuffers
      ensures StageOf(s'.commandPools, g'.commandBuffers[id].value.pool.Id()) != Unissued
    {
      var pool := g'.commandBuffers[id].value.pool.Id();
      assert Rank(StageOf(s.commandPools, pool)) <= Rank(StageOf(s'.commandPools, pool));
      if id in g.commandBuffers {
        assert StageOf(s.commandPools, pool) != Unissued;
      } else {
        assert c.AllocateCommandBuffer? && c.pool.Id() == pool;
        ContentsAt(s.commandPools, pool);
      }
    }
  }

  ghost predicate Safe(s: VkState) {
    VkValid(s) && ParentsLive(GraphOf(s)) && ReferencesIssued(s)
  }

  lemma EmptyIsSafe()
    ensures Safe(EmptyVk())
  {
    EmptyValid<InstanceState>();
    EmptyValid<PhysDevState>();
    EmptyValid<DeviceState>();
    EmptyValid<QueueState>();
    EmptyValid<MemoryState>();
    EmptyValid<BufferState>();
    EmptyValid<CommandPoolState>();
    EmptyValid<CommandBufferState>();
    hide Contents, Valid, Empty;
  }

  lemma StepSafe(s: VkState, m: Message)
    requires Safe(s) && VkBounded(VkStep(s, m.opcode, m.body).state)
    ensures Safe(VkStep(s, m.opcode, m.body).state)
    ensures VkKept(s, VkStep(s, m.opcode, m.body).state)
  {
    hide VkApply, VkStep, ParentsLive, ReferencesIssued, VkValid, VkKept, Accepts, Effects, VkBounded;
    StepIsApply(s, m);
    VkKeptSame(s);
    if Accepted(s, m).Some? {
      var c := Accepted(s, m).value;
      var (s', a) := VkApply(s, c).value;
      VkAcceptsExactly(s, c);
      VkRefinesGraph(s, c);
      ParentsStayLive(GraphOf(s), c, GraphOf(s'), a);
      BuffersStayIssued(s, c);
    }
  }

  lemma BoundedBefore(msgs: seq<Message>, m: nat, n: nat)
    requires m <= n <= |msgs| && VkBounded(After(msgs[..n]))
    ensures VkBounded(After(msgs[..m]))
  {
    hide After;
    RunGrows(msgs, m, n);
  }

  /**
   In every reachable state each recorded parent instance, physical device and device resolves, and
   each bound memory and command pool was issued once; the eight table invariants hold.
   */
  lemma {:induction false} ReachableSafe(msgs: seq<Message>, n: nat)
    requires n <= |msgs|
    ensures VkBounded(After(msgs[..n])) ==> Safe(After(msgs[..n]))
  {
    hide Safe, VkStep, VkBounded;
    if n == 0 {
      EmptyIsSafe();
    } else if VkBounded(After(msgs[..n])) {
      BoundedBefore(msgs, n - 1, n);
      ReachableSafe(msgs, n - 1);
      AfterStep(msgs, n - 1);
      StepSafe(After(msgs[..n - 1]), msgs[n - 1]);
    }
  }

  // Identity over time

  lemma VkKeptTrans(a: VkState, b: VkState, c: VkState)
    requires VkKept(a, b) && VkKept(b, c)
    ensures VkKept(a, c)
  {
    hide Kept;
    KeptTrans(Unchanged<InstanceState>, a.instances, b.instances, c.instances);
    KeptTrans(Unchanged<PhysDevState>, a.physicalDevices, b.physicalDevices, c.physicalDevices);
    KeptTrans(Unchanged<DeviceState>, a.devices, b.devices, c.devices);
    KeptTrans(Unchanged<QueueState>, a.queues, b.queues, c.queues);
    KeptTrans(Unchanged<MemoryState>, a.memories, b.memories, c.memories);
    KeptTrans(BufferEvolves, a.buffers, b.buffers, c.buffers);
    KeptTrans(Unchanged<CommandPoolState>, a.commandPools, b.commandPools, c.commandPools);
    KeptTrans(CommandBufferEvolves, a.commandBuffers, b.commandBuffers, c.commandBuffers);
  }

  lemma {:induction false} RunKept(msgs: seq<Message>, m: nat, n: nat)
    requires m <= n <= |msgs| && VkBounded(After(msgs[..n]))
    ensures VkKept(After(msgs[..m]), After(msgs[..n]))
    decreases n
  {
    hide VkKept, VkStep, VkBounded, Safe;
    if m == n {
      VkKeptSame(After(msgs[..n]));
    } else {
      BoundedBefore(msgs, n - 1, n);
      RunKept(msgs, m, n - 1);
      ReachableSafe(msgs, n - 1);
      AfterStep(msgs, n - 1);
      StepSafe(After(msgs[..n - 1]), msgs[n - 1]);
      VkKeptTrans(After(msgs[..m]), After(msgs[..n - 1]), After(msgs[..n]));
    }
  }

  /** An identity issued by time `m` that resolves at time `n` resolved all along, as the same object. */
  lemma SameObject<T(!new)>(rel: (T, T) -> bool, a: Table<T>, b: Table<T>, h: Handle)
    requires Kept(rel, a, b) && StageOf(a, h.Id()) != Unissued && Lives(b, h)
    ensures Lives(a, h) && rel(Get(a, h).value, Get(b, h).value)
  {
    LivesIffHas(a, h);
    LivesIffHas(b, h);
  }

  /**
   A buffer seen bound at step `m` is, at every later step `n`, gone or still bound to the same
   memory and offset; and if that memory handle resolves at `n`, it resolved at every step from `m`
   on, to the very same memory object. A dangling binding never comes to mean a later object.
   */
  lemma {:induction false} BoundMemoryIsTheSameObject(msgs: seq<Message>, m: nat, k: nat, n: nat, buffer: Handle)
    requires m <= k <= n <= |msgs| && VkBounded(After(msgs[..n]))
    requires Lives(After(msgs[..m]).buffers, buffer) && Get(After(msgs[..m]).buffers, buffer).value.bound.Some?
    ensures var v := Get(After(msgs[..m]).buffers, buffer).value;
            && (Lives(After(msgs[..n]).buffers, buffer) ==> Get(After(msgs[..n]).buffers, buffer).value == v)
            && (Lives(After(msgs[..n]).memories, v.bound.value.memory) ==>
                  Get(After(msgs[..k]).memories, v.bound.value.memory) == Get(After(msgs[..n]).memories, v.bound.value.memory)
                  && Lives(After(msgs[..m]).memories, v.bound.value.memory))
  {
    hide VkBounded, VkStep, After, Kept, VkValid, ParentsLive, Get;
    var a, b, c := After(msgs[..m]), After(msgs[..k]), After(msgs[..n]);
    BoundedBefore(msgs, m, n);
    BoundedBefore(msgs, k, n);
    RunKept(msgs, m, k);
    RunKept(msgs, k, n);
    RunKept(msgs, m, n);
    ReachableSafe(msgs, m);
    LivesIffHas(a.buffers, buffer);
    ContentsAt(a.buffers, buffer.Id());
    if Lives(c.buffers, buffer) {
      SameObject(BufferEvolves, a.buffers, c.buffers, buffer);
    }
    var memory := Get(a.buffers, buffer).value.bound.value.memory;
    if Lives(c.memories, memory) {
      SameObject(Unchanged<MemoryState>, a.memories, c.memories, memory);
      StageLater(Unchanged<MemoryState>, a.memories, b.memories, memory.Id());
      SameObject(Unchanged<MemoryState>, b.memories, c.memories, memory);
    }
  }

  lemma StageLater<T(!new)>(rel: (T, T) -> bool, a: Table<T>, b: Table<T>, id: ObjectId)
    requires Kept(rel, a, b)
    ensures StageOf(a, id) != Unissued ==> StageOf(b, id) != Unissued
  {
    assert Rank(StageOf(a, id)) <= Rank(StageOf(b, id));
  }

  /** The same for the pool a command buffer was allocated from. */
  lemma {:induction false} CommandPoolIsTheSameObject(msgs: seq<Message>, m: nat, k: nat, n: nat, cb: Handle)
    requires m <= k <= n <= |msgs| && VkBounded(After(msgs[..n]))
    requires Lives(After(msgs[..m]).commandBuffers, cb)
    ensures var v := Get(After(msgs[..m]).commandBuffers, cb).value;
            && (Lives(After(msgs[..n]).commandBuffers, cb) ==> Get(After(msgs[..n]).commandBuffers, cb).value.pool == v.pool)
            && (Lives(After(msgs[..n]).commandPools, v.pool) ==>
                  Get(After(msgs[..k]).commandPools, v.pool) == Get(After(msgs[..n]).commandPools, v.pool)
                  && Lives(After(msgs[..m]).commandPools, v.pool))
  {
    hide VkBounded, VkStep, After, Kept, VkValid, ParentsLive, Get;
    var a, b, c := After(msgs[..m]), After(msgs[..k]), After(msgs[..n]);
    BoundedBefore(msgs, m, n);
    BoundedBefore(msgs, k, n);
    RunKept(msgs, m, k);
    RunKept(msgs, k, n);
    RunKept(msgs, m, n);
    ReachableSafe(msgs, m);
    LivesIffHas(a.commandBuffers, cb);
    ContentsAt(a.commandBuffers, cb.Id());
    if Lives(c.commandBuffers, cb) {
      SameObject(CommandBufferEvolves, a.commandBuffers, c.commandBuffers, cb);
    }
    var pool := Get(a.commandBuffers, cb).value.pool;
    if Lives(c.commandPools, pool) {
      SameObject(Unchanged<CommandPoolState>, a.commandPools, c.commandPools, pool);
      StageLater(Unchanged<CommandPoolState>, a.commandPools, b.commandPools, pool.Id());
      SameObject(Unchanged<CommandPoolState>, b.commandPools, c.commandPools, pool);
    }
  }
}
