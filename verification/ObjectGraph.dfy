/**
 The Vulkan backend seen as eight finite maps of objects: when a call is accepted, what it does to
 the maps, and that the table-level backend refines exactly this.
 */
module ObjectGraphs {
  import opened Prelude
  import opened Handles
  import opened Tables
  import opened TableInvariant
  import opened Bodies
  import opened Backends

  type Objects<T> = map<ObjectId, Entry<T>>

  datatype Graph = Graph(
    instances: Objects<InstanceState>,
    physicalDevices: Objects<PhysDevState>,
    devices: Objects<DeviceState>,
    queues: Objects<QueueState>,
    memories: Objects<MemoryState>,
    buffers: Objects<BufferState>,
    commandPools: Objects<CommandPoolState>,
    commandBuffers: Objects<CommandBufferState>
  )

  ghost function GraphOf(s: VkState): Graph {
    Graph(Contents(s.instances), Contents(s.physicalDevices), Contents(s.devices), Contents(s.queues),
          Contents(s.memories), Contents(s.buffers), Contents(s.commandPools), Contents(s.commandBuffers))
  }

  ghost predicate VkValid(s: VkState) {
    && Valid(s.instances) && Valid(s.physicalDevices) && Valid(s.devices) && Valid(s.queues)
    && Valid(s.memories) && Valid(s.buffers) && Valid(s.commandPools) && Valid(s.commandBuffers)
  }

  predicate Fits32<T>(t: Table<T>) {
    |t.slots| <= MAX_SLOTS
  }

  predicate VkBounded(s: VkState) {
    && Fits32(s.instances) && Fits32(s.physicalDevices) && Fits32(s.devices) && Fits32(s.queues)
    && Fits32(s.memories) && Fits32(s.buffers) && Fits32(s.commandPools) && Fits32(s.commandBuffers)
  }

  // The reference semantics on maps

  ghost predicate Has<T>(m: Objects<T>, h: Handle) {
    h.Id() in m
  }

  /** One fresh object of the given kind appears, and the handle names it. */
  ghost predicate Minted<T>(m: Objects<T>, kind: u8, value: T, h: Handle, m': Objects<T>) {
    h.Id() !in m && h.kind == kind && m' == m[h.Id() := Entry(kind, value)]
  }

  /** One existing object gets a new value under its old kind. */
  ghost predicate Rebound<T>(m: Objects<T>, h: Handle, value: T, m': Objects<T>) {
    h.Id() in m && m' == m[h.Id() := Entry(m[h.Id()].kind, value)]
  }

  ghost predicate Accepts(g: Graph, c: Call) {
    match c
    case CreateInstance(_) => true
    case EnumeratePhysicalDevices(i) => Has(g.instances, i) && g.instances[i.Id()].value.created
    case CreateDevice(p) => Has(g.physicalDevices, p)
    case GetDeviceQueue(d, _, _) => Has(g.devices, d)
    case AllocateMemory(d, _) => Has(g.devices, d)
    case CreateBuffer(d, _, _) => Has(g.devices, d)
    case BindBufferMemory(b, m, _) => Has(g.memories, m) && Has(g.buffers, b) && g.buffers[b.Id()].value.bound.None?
    case DestroyBuffer(b) => Has(g.buffers, b)
    case FreeMemory(m) => Has(g.memories, m)
    case CreateCommandPool(d, _) => Has(g.devices, d)
    case AllocateCommandBuffer(p) => Has(g.commandPools, p)
    case QueueSubmit(q, cb) => Has(g.queues, q) && Has(g.commandBuffers, cb)
    case CmdCopyBuffer(cb, src, dst, _) => Has(g.buffers, src) && Has(g.buffers, dst) && Has(g.commandBuffers, cb)
    case CmdDraw(cb, _, _) => Has(g.commandBuffers, cb)
    case DestroyCommandPool(p) => Has(g.commandPools, p)
    case _ => false
  }

  function OneMore(cb: CommandBufferState): CommandBufferState {
    cb.(recorded := Min(cb.recorded + 1, U32_MAX))
  }

  ghost predicate Recorded(g: Graph, cb: Handle, g': Graph) {
    && Has(g.commandBuffers, cb)
    && Rebound(g.commandBuffers, cb, OneMore(g.commandBuffers[cb.Id()].value), g'.commandBuffers)
    && g' == g.(commandBuffers := g'.commandBuffers)
  }

  /** What an accepted call does: one map changes in one place and the answer names what was made. */
  ghost predicate Effects(g: Graph, c: Call, g': Graph, a: Answer) {
    match c
    case CreateInstance(_) =>
      a.Created? && Minted(g.instances, KIND_INSTANCE, InstanceState(true), a.handle, g'.instances)
      && g' == g.(instances := g'.instances)
    case EnumeratePhysicalDevices(i) =>
      a.Devices? && |a.handles| == 1
      && Minted(g.physicalDevices, KIND_PHYSICAL_DEVICE, PhysDevState(i), a.handles[0], g'.physicalDevices)
      && g' == g.(physicalDevices := g'.physicalDevices)
    case CreateDevice(p) =>
      a.Created? && Minted(g.devices, KIND_DEVICE, DeviceState(p), a.handle, g'.devices)
      && g' == g.(devices := g'.devices)
    case GetDeviceQueue(d, family, index) =>
      a.Created? && Minted(g.queues, KIND_QUEUE, QueueState(d, family, index), a.handle, g'.queues)
      && g' == g.(queues := g'.queues)
    case AllocateMemory(d, size) =>
      a.Created? && Minted(g.memories, KIND_DEVICE_MEMORY, MemoryState(d, size), a.handle, g'.memories)
      && g' == g.(memories := g'.memories)
    case CreateBuffer(d, size, usage) =>
      a.Created? && Minted(g.buffers, KIND_BUFFER, BufferState(d, size, usage, None), a.handle, g'.buffers)
      && g' == g.(buffers := g'.buffers)
    case BindBufferMemory(b, m, offset) =>
      a.Ack? && Has(g.buffers, b)
      && Rebound(g.buffers, b, g.buffers[b.Id()].value.(bound := Some(Binding(m, offset))), g'.buffers)
      && g' == g.(buffers := g'.buffers)
    case DestroyBuffer(b) => a.Ack? && g' == g.(buffers := g.buffers - {b.Id()})
    case FreeMemory(m) => a.Ack? && g' == g.(memories := g.memories - {m.Id()})
    case CreateCommandPool(d, family) =>
      a.Created? && Minted(g.commandPools, KIND_COMMAND_POOL, CommandPoolState(d, family), a.handle, g'.commandPools)
      && g' == g.(commandPools := g'.commandPools)
    case AllocateCommandBuffer(p) =>
      a.Created? && Minted(g.commandBuffers, KIND_COMMAND_BUFFER, CommandBufferState(p, 0), a.handle, g'.commandBuffers)
      && g' == g.(commandBuffers := g'.commandBuffers)
    case QueueSubmit(_, _) => a.Ack? && g' == g
    case CmdCopyBuffer(cb, _, _, _) => a.Ack? && Recorded(g, cb, g')
    case CmdDraw(cb, _, _) => a.Ack? && Recorded(g, cb, g')
    case DestroyCommandPool(p) => a.Ack? && g' == g.(commandPools := g.commandPools - {p.Id()})
    case _ => false
  }

  // How an object may evolve while it lives

  ghost predicate Unchanged<T>(v: T, v': T) {
    v == v'
  }

  /** A buffer keeps what it was created with; once bound, it keeps its binding too. */
  predicate BufferEvolves(v: BufferState, v': BufferState) {
    v'.(bound := None) == v.(bound := None) && (v.bound.Some? ==> v'.bound == v.bound)
  }

  predicate CommandBufferEvolves(v: CommandBufferState, v': CommandBufferState) {
    v'.pool == v.pool && v.recorded <= v'.recorded
  }

  /** Whatever resolves later and was already issued before resolved before too, as the same object. */
  ghost predicate Kept<T>(rel: (T, T) -> bool, t: RawTable<T>, t': RawTable<T>) {
    && Later(t, t')
    && forall id {:trigger id in Contents(t')} :: id in Contents(t') && StageOf(t, id) != Unissued ==>
         id in Contents(t) && Contents(t)[id].kind == Contents(t')[id].kind && rel(Contents(t)[id].value, Contents(t')[id].value)
  }

  ghost predicate VkKept(s: VkState, s': VkState) {
    && Kept(Unchanged<InstanceState>, s.instances, s'.instances)
    && Kept(Unchanged<PhysDevState>, s.physicalDevices, s'.physicalDevices)
    && Kept(Unchanged<DeviceState>, s.devices, s'.devices)
    && Kept(Unchanged<QueueState>, s.queues, s'.queues)
    && Kept(Unchanged<MemoryState>, s.memories, s'.memories)
    && Kept(BufferEvolves, s.buffers, s'.buffers)
    && Kept(Unchanged<CommandPoolState>, s.commandPools, s'.commandPools)
    && Kept(CommandBufferEvolves, s.commandBuffers, s'.commandBuffers)
  }

  lemma KeptSame<T(!new)>(rel: (T, T) -> bool, t: RawTable<T>)
    requires forall v :: rel(v, v)
    ensures Kept(rel, t, t)
  {
    forall id | id in Contents(t) ensures StageOf(t, id) == Resolving {
      ContentsAt(t, id);
    }
  }

  lemma KeptTrans<T(!new)>(rel: (T, T) -> bool, a: RawTable<T>, b: RawTable<T>, c: RawTable<T>)
    requires forall u, v, w :: rel(u, v) && rel(v, w) ==> rel(u, w)
    requires Kept(rel, a, b) && Kept(rel, b, c)
    ensures Kept(rel, a, c)
  {
    forall id ensures Rank(StageOf(a, id)) <= Rank(StageOf(c, id)) {
      assert Rank(StageOf(a, id)) <= Rank(StageOf(b, id)) <= Rank(StageOf(c, id));
    }
    forall id | id in Contents(c) && StageOf(a, id) != Unissued
      ensures id in Contents(a) && Contents(a)[id].kind == Contents(c)[id].kind && rel(Contents(a)[id].value, Contents(c)[id].value)
    {
      assert Rank(StageOf(a, id)) <= Rank(StageOf(b, id));
      assert id in Contents(b);
    }
  }

  // The table operations, in these terms

  lemma LivesIffHas<T>(t: Table<T>, h: Handle)
    ensures Lives(t, h) <==> Has(Contents(t), h)
    ensures Lives(t, h) ==> Get(t, h) == Some(Contents(t)[h.Id()].value)
  {
    GetIsLookup(t, h);
  }

  lemma InsertMints<T(!new)>(rel: (T, T) -> bool, t: Table<T>, kind: u8, value: T)
    requires forall v :: rel(v, v)
    requires Valid(t) && Fits32(Insert(t, kind, value).table)
    ensures var r := Insert(t, kind, value);
            Valid(r.table) && Minted(Contents(t), kind, value, r.handle, Contents(r.table)) && Kept(rel, t, r.table)
  {
    var r := Insert(t, kind, value);
    InsertValid(t, kind, value);
    InsertStages(t, kind, value);
    InsertRefines(t, kind, value);
  }

  lemma UpdateRebinds<T(!new)>(rel: (T, T) -> bool, t: Table<T>, h: Handle, value: T)
    requires forall v :: rel(v, v)
    requires Valid(t) && Lives(t, h) && rel(Get(t, h).value, value)
    ensures var t' := Update(t, h, value);
            Valid(t') && Rebound(Contents(t), h, value, Contents(t')) && Kept(rel, t, t')
  {
    UpdateValid(t, h, value);
    UpdateRefines(t, h, value);
    LivesIffHas(t, h);
  }

  lemma RemoveDrops<T(!new)>(rel: (T, T) -> bool, t: Table<T>, h: Handle)
    requires forall v :: rel(v, v)
    requires Valid(t)
    ensures var t' := Remove(t, h).0;
            Valid(t') && Contents(t') == Contents(t) - {h.Id()} && Kept(rel, t, t')
  {
    RemoveValid(t, h);
    RemoveRefines(t, h);
  }

  // The refinement

  lemma VkKeptSame(s: VkState)
    ensures VkKept(s, s)
  {
    hide Kept;
    KeptSame(Unchanged<InstanceState>, s.instances);
    KeptSame(Unchanged<PhysDevState>, s.physicalDevices);
    KeptSame(Unchanged<DeviceState>, s.devices);
    KeptSame(Unchanged<QueueState>, s.queues);
    KeptSame(Unchanged<MemoryState>, s.memories);
    KeptSame(BufferEvolves, s.buffers);
    KeptSame(Unchanged<CommandPoolState>, s.commandPools);
    KeptSame(CommandBufferEvolves, s.commandBuffers);
  }

  lemma RecordAccepts(s: VkState, cb: Handle)
    ensures Record(s, cb).Some? <==> Has(GraphOf(s).commandBuffers, cb)
  {
    hide Contents, Get, Update;
    LivesIffHas(s.commandBuffers, cb);
  }

  /** The backend accepts exactly the calls the graph accepts. */
  lemma {:induction false} VkAcceptsExactly(s: VkState, c: Call)
    ensures VkApply(s, c).Some? <==> Accepts(GraphOf(s), c)
  {
    hide Contents, Get, Insert, Update, Remove, Record, Lives;
    match c
    case CreateInstance(_) =>
    case EnumeratePhysicalDevices(i) => LivesIffHas(s.instances, i);
    case CreateDevice(p) => LivesIffHas(s.physicalDevices, p);
    case GetDeviceQueue(d, _, _) => LivesIffHas(s.devices, d);
    case AllocateMemory(d, _) => LivesIffHas(s.devices, d);
    case CreateBuffer(d, _, _) => LivesIffHas(s.devices, d);
    case BindBufferMemory(b, m, _) => LivesIffHas(s.memories, m); LivesIffHas(s.buffers, b);
    case DestroyBuffer(b) => LivesIffHas(s.buffers, b);
    case FreeMemory(m) => LivesIffHas(s.memories, m);
    case CreateCommandPool(d, _) => LivesIffHas(s.devices, d);
    case AllocateCommandBuffer(p) => LivesIffHas(s.commandPools, p);
    case QueueSubmit(q, cb) => LivesIffHas(s.queues, q); LivesIffHas(s.commandBuffers, cb);
    case CmdCopyBuffer(cb, src, dst, _) =>
      LivesIffHas(s.buffers, src); LivesIffHas(s.buffers, dst); RecordAccepts(s, cb);
    case CmdDraw(cb, _, _) => RecordAccepts(s, cb);
    case DestroyCommandPool(p) => LivesIffHas(s.commandPools, p);
    case _ =>
  }

  lemma VkCreateRefines(s: VkState, c: Call)
    requires VkValid(s) && VkApply(s, c).Some? && VkBounded(VkApply(s, c).value.0)
    requires VkApply(s, c).value.1 != Ack
    ensures var (s', a) := VkApply(s, c).value;
            VkValid(s') && VkKept(s, s') && Effects(GraphOf(s), c, GraphOf(s'), a)
  {
    hide Contents, Get, Insert, Kept, Valid;
    VkKeptSame(s);
    match c
    case CreateInstance(_) => InsertMints(Unchanged<InstanceState>, s.instances, KIND_INSTANCE, InstanceState(true));
    case EnumeratePhysicalDevices(i) =>
      InsertMints(Unchanged<PhysDevState>, s.physicalDevices, KIND_PHYSICAL_DEVICE, PhysDevState(i));
    case CreateDevice(p) => InsertMints(Unchanged<DeviceState>, s.devices, KIND_DEVICE, DeviceState(p));
    case GetDeviceQueue(d, family, index) =>
      InsertMints(Unchanged<QueueState>, s.queues, KIND_QUEUE, QueueState(d, family, index));
    case AllocateMemory(d, size) =>
      InsertMints(Unchanged<MemoryState>, s.memories, KIND_DEVICE_MEMORY, MemoryState(d, size));
    case CreateBuffer(d, size, usage) =>
      InsertMints(BufferEvolves, s.buffers, KIND_BUFFER, BufferState(d, size, usage, None));
    case CreateCommandPool(d, family) =>
      InsertMints(Unchanged<CommandPoolState>, s.commandPools, KIND_COMMAND_POOL, CommandPoolState(d, family));
    case AllocateCommandBuffer(p) =>
      InsertMints(CommandBufferEvolves, s.commandBuffers, KIND_COMMAND_BUFFER, CommandBufferState(p, 0));
    case _ =>
  }

  lemma RecordRefines(s: VkState, cb: Handle)
    requires VkValid(s) && Record(s, cb).Some?
    ensures var s' := Record(s, cb).value.0;
            VkValid(s') && VkKept(s, s') && Recorded(GraphOf(s), cb, GraphOf(s'))
  {
    hide Contents, Get, Update, Kept, Valid;
    VkKeptSame(s);
    LivesIffHas(s.commandBuffers, cb);
    var v := Get(s.commandBuffers, cb).value;
    UpdateRebinds(CommandBufferEvolves, s.commandBuffers, cb, v.(recorded := SaturatingAdd32(v.recorded, 1)));
  }

  lemma VkChangeRefines(s: VkState, c: Call)
    requires VkValid(s) && VkApply(s, c).Some? && VkApply(s, c).value.1 == Ack
    ensures var (s', a) := VkApply(s, c).value;
            VkValid(s') && VkKept(s, s') && Effects(GraphOf(s), c, GraphOf(s'), a)
  {
    hide Contents, Get, Update, Remove, Record, Recorded, Kept, Valid, Insert;
    VkKeptSame(s);
    match c
    case BindBufferMemory(b, m, offset) =>
      LivesIffHas(s.buffers, b);
      var v := Get(s.buffers, b).value.(bound := Some(Binding(m, offset)));
      UpdateRebinds(BufferEvolves, s.buffers, b, v);
    case CmdCopyBuffer(cb, _, _, _) => RecordRefines(s, cb); RecordAcks(s, cb);
    case CmdDraw(cb, _, _) => RecordRefines(s, cb); RecordAcks(s, cb);
    case DestroyBuffer(b) => RemoveDrops(BufferEvolves, s.buffers, b);
    case FreeMemory(m) => RemoveDrops(Unchanged<MemoryState>, s.memories, m);
    case DestroyCommandPool(p) => RemoveDrops(Unchanged<CommandPoolState>, s.commandPools, p);
    case _ =>
  }

  lemma RecordAcks(s: VkState, cb: Handle)
    ensures Record(s, cb).Some? ==> Record(s, cb).value.1 == Ack
  {
  }

  /**
   Every accepted call refines its effect on the maps, keeps all eight table invariants, and lets
   each live object evolve only as its type allows.
   */
  lemma VkRefinesGraph(s: VkState, c: Call)
    requires VkValid(s) && VkApply(s, c).Some? && VkBounded(VkApply(s, c).value.0)
    ensures var (s', a) := VkApply(s, c).value;
            VkValid(s') && VkKept(s, s') && Effects(GraphOf(s), c, GraphOf(s'), a)
  {
    hide *;
    if VkApply(s, c).value.1 == Ack {
      VkChangeRefines(s, c);
    } else {
      VkCreateRefines(s, c);
    }
  }
}
