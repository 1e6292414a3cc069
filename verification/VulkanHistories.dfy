/** What the calls of a run add up to, object by object: one binding per buffer, counted commands. */
module VulkanHistories {
  import opened Prelude
  import opened Handles
  import opened Tables
  import opened TableInvariant
  import opened Bodies
  import opened Backends
  import opened ObjectGraphs
  import opened VulkanRuns

  /** The binding an accepted call makes on the buffer `id`, if it makes one. */
  function BindingBy(c: Option<Call>, id: ObjectId): seq<Binding> {
    if c.Some? && c.value.BindBufferMemory? && c.value.buffer.Id() == id
    then [Binding(c.value.memory, c.value.offset)]
    else []
  }

  /** Does an accepted call record a command into the command buffer `id`? */
  function RecordingBy(c: Option<Call>, id: ObjectId): nat {
    if c.Some? && (c.value.CmdDraw? || c.value.CmdCopyBuffer?) && c.value.commandBuffer.Id() == id then 1 else 0
  }

  /** All bindings made on `id` by the first `n` messages, in order. */
  function Bindings(msgs: seq<Message>, n: nat, id: ObjectId): seq<Binding>
    requires n <= |msgs|
  {
    if n == 0 then [] else Bindings(msgs, n - 1, id) + BindingBy(Accepted(After(msgs[..n - 1]), msgs[n - 1]), id)
  }

  /** How many copies and draws naming `id` were accepted among the first `n` messages. */
  function Recordings(msgs: seq<Message>, n: nat, id: ObjectId): nat
    requires n <= |msgs|
  {
    if n == 0 then 0 else Recordings(msgs, n - 1, id) + RecordingBy(Accepted(After(msgs[..n - 1]), msgs[n - 1]), id)
  }

  ghost predicate BindingMatches(s: VkState, id: ObjectId, made: seq<Binding>) {
    && |made| <= 1
    && (StageOf(s.buffers, id) == Unissued ==> made == [])
    && (id in Contents(s.buffers) ==>
          Contents(s.buffers)[id].value.bound == if made == [] then None else Some(made[0]))
  }

  ghost predicate CountMatches(s: VkState, id: ObjectId, count: nat) {
    && (StageOf(s.commandBuffers, id) == Unissued ==> count == 0)
    && (id in Contents(s.commandBuffers) ==> Contents(s.commandBuffers)[id].value.recorded == Min(count, U32_MAX))
  }

  lemma BindingStep(s: VkState, c: Call, id: ObjectId, made: seq<Binding>)
    requires Safe(s) && VkApply(s, c).Some? && VkBounded(VkApply(s, c).value.0)
    requires BindingMatches(s, id, made)
    ensures BindingMatches(VkApply(s, c).value.0, id, made + BindingBy(Some(c), id))
  {
    hide VkApply, Contents, StageOf, VkValid, ParentsLive, ReferencesIssued, VkBounded;
    VkAcceptsExactly(s, c);
    VkRefinesGraph(s, c);
    var (s', a) := VkApply(s, c).value;
    var g, g' := GraphOf(s), GraphOf(s');
    ContentsAt(s.buffers, id);
    StageLater(BufferEvolves, s.buffers, s'.buffers, id);
    if BindingBy(Some(c), id) == [] {
      assert made + [] == made;
      assert id in g'.buffers && id in g.buffers ==> g'.buffers[id].value == g.buffers[id].value;
    } else {
      assert made == [];
    }
  }

  lemma CountStep(s: VkState, c: Call, id: ObjectId, count: nat)
    requires Safe(s) && VkApply(s, c).Some? && VkBounded(VkApply(s, c).value.0)
    requires CountMatches(s, id, count)
    ensures CountMatches(VkApply(s, c).value.0, id, count + RecordingBy(Some(c), id))
  {
    hide VkApply, Contents, StageOf, VkValid, ParentsLive, ReferencesIssued, VkBounded;
    VkAcceptsExactly(s, c);
    VkRefinesGraph(s, c);
    var (s', a) := VkApply(s, c).value;
    var g, g' := GraphOf(s), GraphOf(s');
    ContentsAt(s.commandBuffers, id);
    StageLater(CommandBufferEvolves, s.commandBuffers, s'.commandBuffers, id);
    if RecordingBy(Some(c), id) == 0 {
      assert id in g'.commandBuffers && id in g.commandBuffers ==>
          g'.commandBuffers[id].value == g.commandBuffers[id].value;
    }
  }

  lemma HistoryStart(id: ObjectId)
    ensures BindingMatches(EmptyVk(), id, []) && CountMatches(EmptyVk(), id, 0)
  {
    hide Contents, Valid;
    EmptyValid<BufferState>();
    EmptyValid<CommandBufferState>();
  }

  lemma HistoryStep(s: VkState, m: Message, id: ObjectId, made: seq<Binding>, count: nat)
    requires Safe(s) && VkBounded(VkStep(s, m.opcode, m.body).state)
    requires BindingMatches(s, id, made) && CountMatches(s, id, count)
    ensures BindingMatches(VkStep(s, m.opcode, m.body).state, id, made + BindingBy(Accepted(s, m), id))
    ensures CountMatches(VkStep(s, m.opcode, m.body).state, id, count + RecordingBy(Accepted(s, m), id))
  {
    hide *;
    StepIsApply(s, m);
    if Accepted(s, m).Some? {
      BindingStep(s, Accepted(s, m).value, id, made);
      CountStep(s, Accepted(s, m).value, id, count);
    } else {
      NothingBy(id);
      assert made + [] == made;
    }
  }

  lemma {:induction false} HistoriesMatch(msgs: seq<Message>, n: nat, id: ObjectId)
    requires n <= |msgs| && VkBounded(After(msgs[..n]))
    ensures BindingMatches(After(msgs[..n]), id, Bindings(msgs, n, id))
    ensures CountMatches(After(msgs[..n]), id, Recordings(msgs, n, id))
  {
    hide BindingMatches, CountMatches, VkStep, VkBounded, Safe, BindingBy, RecordingBy, Accepted;
    if n == 0 {
      HistoryStart(id);
    } else {
      BoundedBefore(msgs, n - 1, n);
      HistoriesMatch(msgs, n - 1, id);
      ReachableSafe(msgs, n - 1);
      AfterStep(msgs, n - 1);
      HistoryStep(After(msgs[..n - 1]), msgs[n - 1], id, Bindings(msgs, n - 1, id), Recordings(msgs, n - 1, id));
    }
  }

  lemma NothingBy(id: ObjectId)
    ensures BindingBy(None, id) == [] && RecordingBy(None, id) == 0
  {
  }

  /**
   Over any run, at most one binding is ever made on a buffer, and a live buffer shows that one, or
   none if none was made; since identities are not reused, the whole run may be searched for it.
   */
  lemma {:induction false} BoundAtMostOnce(msgs: seq<Message>, n: nat, buffer: Handle)
    requires n <= |msgs| && VkBounded(After(msgs[..n]))
    ensures var made := Bindings(msgs, n, buffer.Id());
            && |made| <= 1
            && (Lives(After(msgs[..n]).buffers, buffer) ==>
                  Get(After(msgs[..n]).buffers, buffer).value.bound == if made == [] then None else Some(made[0]))
  {
    hide After, VkBounded;
    HistoriesMatch(msgs, n, buffer.Id());
    LivesIffHas(After(msgs[..n]).buffers, buffer);
  }

  /** A live command buffer's counter is the number of accepted commands naming it, capped at 2^32 - 1. */
  lemma {:induction false} RecordedCountsCommands(msgs: seq<Message>, n: nat, cb: Handle)
    requires n <= |msgs| && VkBounded(After(msgs[..n]))
    requires Lives(After(msgs[..n]).commandBuffers, cb)
    ensures Get(After(msgs[..n]).commandBuffers, cb).value.recorded == Min(Recordings(msgs, n, cb.Id()), U32_MAX)
  {
    hide After, VkBounded;
    HistoriesMatch(msgs, n, cb.Id());
    LivesIffHas(After(msgs[..n]).commandBuffers, cb);
  }

  /** The message that made the binding. */
  lemma {:induction false} FindBinding(msgs: seq<Message>, n: nat, id: ObjectId) returns (i: nat)
    requires n <= |msgs| && Bindings(msgs, n, id) != []
    ensures i < n && BindingBy(Accepted(After(msgs[..i]), msgs[i]), id) == Bindings(msgs, n, id)[..1]
  {
    hide BindingBy, Accepted, After;
    var before := Bindings(msgs, n - 1, id);
    if before == [] {
      i := n - 1;
      OneBinding(Accepted(After(msgs[..i]), msgs[i]), id);
      assert before + BindingBy(Accepted(After(msgs[..i]), msgs[i]), id) == BindingBy(Accepted(After(msgs[..i]), msgs[i]), id);
    } else {
      i := FindBinding(msgs, n - 1, id);
      assert Bindings(msgs, n, id)[..1] == before[..1];
    }
  }

  lemma OneBinding(c: Option<Call>, id: ObjectId)
    ensures |BindingBy(c, id)| <= 1 && BindingBy(c, id)[..|BindingBy(c, id)|] == BindingBy(c, id)
  {
  }

  /**
   Every binding a live buffer shows was made by one earlier message, when the memory was live; and
   as long as the recorded handle resolves, it resolves to that same memory object, unchanged.
   */
  lemma {:induction false} BoundMemoryIsTheOneBound(msgs: seq<Message>, n: nat, buffer: Handle) returns (i: nat)
    requires n <= |msgs| && VkBounded(After(msgs[..n]))
    requires Lives(After(msgs[..n]).buffers, buffer) && Get(After(msgs[..n]).buffers, buffer).value.bound.Some?
    ensures var binding := Get(After(msgs[..n]).buffers, buffer).value.bound.value;
            && i < n
            && BindingBy(Accepted(After(msgs[..i]), msgs[i]), buffer.Id()) == [binding]
            && Lives(After(msgs[..i]).memories, binding.memory)
            && Get(After(msgs[..n]).memories, binding.memory) in {None, Get(After(msgs[..i]).memories, binding.memory)}
  {
    hide After, VkBounded, Safe, VkApply, DecodeCall, Kept, Get, Contents;
    BoundAtMostOnce(msgs, n, buffer);
    i := FindBinding(msgs, n, buffer.Id());
    var s, t := After(msgs[..i]), After(msgs[..n]);
    var binding := Get(t.buffers, buffer).value.bound.value;
    assert Bindings(msgs, n, buffer.Id())[..1] == [binding];
    var c := Accepted(s, msgs[i]).value;
    VkAcceptsExactly(s, c);
    LivesIffHas(s.memories, binding.memory);
    ContentsAt(s.memories, binding.memory.Id());
    RunKept(msgs, i, n);
    if Lives(t.memories, binding.memory) {
      SameObject(Unchanged<MemoryState>, s.memories, t.memories, binding.memory);
    }
  }

  /** The pool a call takes the command buffer `cb` from, if it is the call that answers `cb`. */
  function AllocationBy(s: VkState, c: Option<Call>, cb: ObjectId): Option<Handle> {
    if c.Some? && c.value.AllocateCommandBuffer? && VkApply(s, c.value).Some?
       && VkApply(s, c.value).value.1.Created? && VkApply(s, c.value).value.1.handle.Id() == cb
    then Some(c.value.pool)
    else None
  }

  /** A command buffer that appears in a step was allocated by it. */
  lemma AppearsByAllocation(s: VkState, c: Call, id: ObjectId)
    requires Safe(s) && VkApply(s, c).Some? && VkBounded(VkApply(s, c).value.0)
    ensures var s' := VkApply(s, c).value.0;
            id in Contents(s'.commandBuffers) && id !in Contents(s.commandBuffers) ==>
              AllocationBy(s, Some(c), id) == Some(Contents(s'.commandBuffers)[id].value.pool)
  {
    hide VkApply, Contents, StageOf, VkValid, VkKept, ParentsLive, ReferencesIssued, VkBounded;
    VkAcceptsExactly(s, c);
    VkRefinesGraph(s, c);
  }

  /** The message that allocated a live command buffer. */
  lemma {:induction false} FindAllocation(msgs: seq<Message>, n: nat, id: ObjectId) returns (i: nat)
    requires n <= |msgs| && VkBounded(After(msgs[..n])) && id in Contents(After(msgs[..n]).commandBuffers)
    ensures i < n
    ensures AllocationBy(After(msgs[..i]), Accepted(After(msgs[..i]), msgs[i]), id) ==
            Some(Contents(After(msgs[..n]).commandBuffers)[id].value.pool)
    decreases n
  {
    hide VkBounded, Safe, VkApply, Contents, AllocationBy, VkStep, Accepted;
    NoCommandBuffers(msgs);
    var s, t := After(msgs[..n - 1]), After(msgs[..n]);
    BoundedBefore(msgs, n - 1, n);
    ReachableSafe(msgs, n - 1);
    AfterStep(msgs, n - 1);
    StepIsApply(s, msgs[n - 1]);
    if id in Contents(s.commandBuffers) {
      i := FindAllocation(msgs, n - 1, id);
      RunKept(msgs, n - 1, n);
      PoolKept(s, t, id);
    } else {
      i := n - 1;
      AppearsByAllocation(s, Accepted(s, msgs[n - 1]).value, id);
    }
  }

  lemma NoCommandBuffers(msgs: seq<Message>)
    ensures Contents(After(msgs[..0]).commandBuffers) == map[]
  {
    assert msgs[..0] == [];
    EmptyValid<CommandBufferState>();
  }

  lemma PoolKept(s: VkState, t: VkState, id: ObjectId)
    requires VkKept(s, t) && id in Contents(s.commandBuffers) && id in Contents(t.commandBuffers)
    ensures Contents(s.commandBuffers)[id].value.pool == Contents(t.commandBuffers)[id].value.pool
  {
    hide Contents, StageOf;
    ContentsAt(s.commandBuffers, id);
  }

  /**
   Every live command buffer was allocated by one earlier message, from a pool that was live then; and
   as long as the recorded pool handle resolves, it resolves to that same pool, unchanged.
   */
  lemma {:induction false} CommandPoolIsTheOneAllocatedFrom(msgs: seq<Message>, n: nat, cb: Handle) returns (i: nat)
    requires n <= |msgs| && VkBounded(After(msgs[..n]))
    requires Lives(After(msgs[..n]).commandBuffers, cb)
    ensures var pool := Get(After(msgs[..n]).commandBuffers, cb).value.pool;
            && i < n
            && AllocationBy(After(msgs[..i]), Accepted(After(msgs[..i]), msgs[i]), cb.Id()) == Some(pool)
            && Lives(After(msgs[..i]).commandPools, pool)
            && Get(After(msgs[..n]).commandPools, pool) in {None, Get(After(msgs[..i]).commandPools, pool)}
  {
    hide After, VkBounded, Safe, VkApply, DecodeCall, Kept, Get, Contents;
    LivesIffHas(After(msgs[..n]).commandBuffers, cb);
    i := FindAllocation(msgs, n, cb.Id());
    var s, t := After(msgs[..i]), After(msgs[..n]);
    var pool := Get(t.commandBuffers, cb).value.pool;
    VkAcceptsExactly(s, Accepted(s, msgs[i]).value);
    LivesIffHas(s.commandPools, pool);
    ContentsAt(s.commandPools, pool.Id());
    RunKept(msgs, i, n);
    if Lives(t.commandPools, pool) {
      SameObject(Unchanged<CommandPoolState>, s.commandPools, t.commandPools, pool);
    }
  }
}
