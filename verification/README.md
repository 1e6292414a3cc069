# GraftX in Dafny

GraftX forwards GPU API calls from a client to a server. Client shims encode calls into frames, a
length-prefixed stream carries them, a per-session state machine validates and routes them, and
stub backends replay them against generational handle tables. This project models those layers and
proves what they promise, one by one and together.

`dafny verify dfyconfig.toml` checks everything.

## How it is built

Each layer has a model on values (datatypes and functions), lemmas about that model over all inputs,
runs and scripts, and, where the program changes things in place, classes whose methods are proved
equal to the model on the state before.

| module | layer |
|---|---|
| Prelude, Handles | machine integers, the packed wire handle |
| Tables, TableInvariant, TableBulk, TableRuns, TableReuse, HandleTables | the generational handle table: operations, representation invariant and map refinement, bulk frees and listings, whole runs with history, slot reuse and quotas, the object |
| Wire, Protocol, Bodies, Layouts | little-endian fields and the reader, frames and handshake, request and reply bodies, and all of them byte by byte |
| Backends, BackendObjects | the Vulkan and video backends on values and as objects |
| ObjectGraphs, VulkanRuns, VulkanHistories, VideoRuns | reference semantics on maps of objects, reachable states, object identity, per-object histories |
| Sessions, NonInterference, SessionObjects, SessionRuns | the session over any family of backends, API isolation, the object, the backends' runs inside it |
| Streams | framing over a byte stream |
| Serving, ServeLoops, Obs | both serve loops over scripted transports, call metrics |
| Clients, ReplyChecks, ServedCalls, ClientObjects, Traces | shims and client, what they make of any reply, what any call is answered with, remoting transparency, record and replay |

## Main results

- **Handles are never reissued.** Over every run of the table, two issued handles never name the same
  object if and only if the table has at most 2^32 slots. The bound is the 32-bit slot cast; past it
  every run reissues an identity, and such runs exist (`NoHandleReissued`, `OverflowReissues`,
  `ReissuingRun`).
- **Freed slots come back newest first** and quotas hold over whole runs (`InsertsReuseNewestFirst`,
  `InsertsAfterRetain`, `QuotaBoundsLive`).
- **The books balance.** Generations, retirements, frees, live entries, peak and capacity satisfy exact
  identities after every run (`RunAccounting`).
- **Dangling references stay dead.** In every reachable Vulkan state recorded parents resolve, and a
  bound memory or a command pool resolves to the object recorded or to nothing (`ReachableSafe`,
  `BoundMemoryIsTheOneBound`, `CommandPoolIsTheOneAllocatedFrom`), also when the backend is reached
  through a session (`ServedVulkanIsSafe`).
- **The backend refines an object graph.** Eight tables behave as eight finite maps, call by call
  (`VkAcceptsExactly`, `VkRefinesGraph`), and the video backend as one (`VideoAcceptsExactly`,
  `VideoRefinesMap`).
- **Answers are exact.** Every honest frame gets the one reply or the one error the backend's objects
  call for (`RefusalsAreExact`, `AcceptedCallAnswered`, `HelloAnswered`), and over a link that may
  deliver any frame the client accepts no wrong reply (`ShimRefusesWrongReplies`,
  `ConnectRefusesWrongReplies`).
- **APIs do not interfere**, byte for byte up to the sequence number, whatever the backends
  (`OtherApisDoNotInterfere`).
- **Remoting is transparent.** Calls through shims, frames, stream, session and backend and back return
  what the direct operations return and leave the same tables; every failure is an end of stream with
  tables unchanged (`ShimIsTransparent`, `RemotingIsTransparent`, `ConnectedCallsAreTransparent`).
- **Client and session stay in lockstep**: from the handshake on, the k-th request and the k-th reply of
  a recorded run both carry request id and sequence number k (`ConnectedRunInLockstep`,
  `ConnectedTraceNumbers`).
- **Replay is faithful**, handshake included (`ConnectedRunReplays`), **instrumentation is invisible**
  (`MeteredSimulatesPlain`) and **metrics are conserved under saturation** (`ServedMetricsConserved`,
  `TotalInAnyOrder`).
- **The codec is exact**: round trips in both directions, acceptance conditions, behaviour on truncated
  streams, and every byte in its place (`FrameReencode`, `CallReencode`, `DevicesExact`,
  `TruncationYieldsPrefix`, `FrameLayout`, `CallLayout`).

## Modelling choices

- A wire handle is kept as its three fields; `RawBijection` shows that packing loses nothing. Tables
  look only at slot and generation, so an object's identity is that pair (`ObjectId`).
- `usize` lengths and the live counter are unbounded numbers; the live counter is proved equal to the
  number of occupied slots. Casts of lengths to 32 bits keep the low bits. `next_seq` wraps at 2^64 as
  in a release build; a debug build would stop there instead.
- `retain` takes a pure predicate of handle and value. Within one pass every handle is visited once
  and no two are equal, so any `FnMut` acts in that pass as such a function.
- `Sessions` takes the backends' step as a parameter, so isolation, numbering and the cap hold for any
  backends; atomic failure is stated for steps that fail atomically, which the modelled ones do.
- A Rust struct owns its tables by value, so the backend objects hold them as fields of value type;
  `HandleTables` proves the table object itself.
- The fifteen Vulkan shims and three video shims differ only in body, answer and expected kind; one
  `Shim` covers them, by the `Call` it makes. `Demand` likewise stands for the client's wrapper methods.
- `Endpoint` stands for any transport by a script of outcomes; `VecTransport` is the script without
  failures. `ServedLink` is the client's transport: two stream transports with a session serving at the
  far end, which takes its turn when the client waits. Sending to a peer that has stopped is a broken
  pipe, as on the in-process transport.
- The library sort of report rows is modelled by putting each name in its place; the order is by
  character, which for the ASCII names in use is the byte order.
- The two serve loops share one body in the objects (`RunTurn`); their models are written separately.
- On a short read a stream is drained; how much a failed exact read consumes is otherwise unspecified.

## Model

| member | source | states |
|---|---|---|
| TableRuns.NoHandleReissued | crates/graftx-handles/src/lib.rs:125-143 | over every run from an empty table, no two handles issued name the same object if and only if the capacity is at most 2^32; raw values then differ too |
| TableRuns.OverflowReissues | crates/graftx-handles/src/lib.rs:134 | past 2^32 slots the 32-bit slot cast does issue one identity twice, in every such run |
| TableRuns.ReissuingRun | crates/graftx-handles/src/lib.rs:130-142 | the failing run: 2^32 + 1 inserts into an empty table issue an identity twice |
| TableRuns.FreedNeverResolves | crates/graftx-handles/src/lib.rs:192-209 | a handle that resolved and stopped resolving never resolves again, after reuse or retirement |
| TableRuns.RunLater | crates/graftx-handles/src/lib.rs:11-14 | every identity only moves forward from unissued to resolving to gone over any run |
| TableRuns.RunAccounting | crates/graftx-handles/src/lib.rs:326-339 | generations plus retirements equal the frees; issues equal frees plus live; retired * 2^24 <= frees; capacity <= peak + retired; live + free + retired = capacity |
| TableRuns.RunAccounted | crates/graftx-handles/src/lib.rs:109-143 | the whole-run invariant behind distinct handles and balanced books holds after every prefix of every run |
| TableRuns.ApplySteps | crates/graftx-handles/src/lib.rs:125-434 | every operation keeps the invariant, frees exactly the slots it reports, issues at most one identity and only a fresh one |
| TableRuns.SlotBirth | crates/graftx-handles/src/lib.rs:134-142 | each slot of the table was appended by one operation, which issued generation 0 of its truncated slot number |
| TableReuse.InsertsReuseNewestFirst | crates/graftx-handles/src/lib.rs:125-131 | after any removals the next inserts answer the freed slots newest first, each one generation up, skipping the retired ones |
| TableReuse.NextInsertReuses | crates/graftx-handles/src/lib.rs:125-131 | in particular a slot just freed is the next one used, under its next generation |
| TableReuse.InsertsAfterRetain | crates/graftx-handles/src/lib.rs:390-434 | after `retain` the rejected entries come back from the highest slot down |
| TableReuse.InsertsAfterClear | crates/graftx-handles/src/lib.rs:353-388 | after `clear` everything that was live comes back from the highest slot down |
| TableReuse.InsertAppendsWhenFull | crates/graftx-handles/src/lib.rs:133-142 | a slot is appended, under generation 0, if and only if nothing is left to reuse |
| TableReuse.TryInsertExact | crates/graftx-handles/src/lib.rs:145-162 | a quota insert answers a handle if and only if fewer than the quota are live; then it is an insert, otherwise nothing changes |
| TableReuse.QuotaBoundsLive | crates/graftx-handles/src/lib.rs:145-162 | over any run whose insertions keep to quotas of at most m, no more than m entries are ever live |
| TableReuse.QuotaBoundsCapacity | crates/graftx-handles/src/lib.rs:145-162 | under such quotas storage stays within m slots plus one for every 2^24 frees |
| TableInvariant.InsertValid | crates/graftx-handles/src/lib.rs:125-143 | insertion keeps the free list exact and duplicate-free and the live count right while slots fit 32 bits |
| TableInvariant.InsertStages | crates/graftx-handles/src/lib.rs:119-143 | insertion hands out an identity never seen before under the given kind and changes no other identity |
| TableInvariant.InsertRefines | crates/graftx-handles/src/lib.rs:125-143 | insertion adds one fresh binding to the map from identities to (kind, value) |
| TableInvariant.GetIsLookup | crates/graftx-handles/src/lib.rs:164-174 | resolution is map lookup by slot and generation; the kind byte plays no part |
| TableInvariant.UpdateRefines | crates/graftx-handles/src/lib.rs:176-184 | writing through `get_mut` rebinds one value and nothing else |
| TableInvariant.UpdateStale | crates/graftx-handles/src/lib.rs:176-184 | writing through a stale handle does nothing |
| TableInvariant.UpdateValid | crates/graftx-handles/src/lib.rs:176-184 | writing through `get_mut` keeps the representation invariant and the generation accounts |
| TableInvariant.RemoveValid | crates/graftx-handles/src/lib.rs:192-209 | removal keeps the representation invariant and spends exactly one generation, or the slot |
| TableInvariant.RemoveRefines | crates/graftx-handles/src/lib.rs:186-209 | removal returns what resolved, deletes that binding for good, and does nothing for a stale handle |
| TableInvariant.FreeSlotStages | crates/graftx-handles/src/lib.rs:201-207 | freeing a slot retires or bumps it so that its identity is gone and no other identity moves |
| TableInvariant.CapacityPartition | crates/graftx-handles/src/lib.rs:319-339 | live, free and retired slots always make up the capacity |
| TableInvariant.SlotsPartition | crates/graftx-handles/src/lib.rs:201-207 | each retired slot accounts for 2^24 frees |
| TableBulk.RetainIsRepeatedRemove | crates/graftx-handles/src/lib.rs:390-434 | `retain` equals `remove` on each rejected handle in slot order, including generations, retirements, live count and free-list order, and returns how many |
| TableBulk.RetainRefines | crates/graftx-handles/src/lib.rs:390-434 | `retain` filters the map by the predicate |
| TableBulk.RetainStage | crates/graftx-handles/src/lib.rs:400-405 | after `retain` every handle of a dropped entry is stale and every other identity is as before |
| TableBulk.RetainValid | crates/graftx-handles/src/lib.rs:410-434 | `retain` keeps the representation invariant and reports the slots it freed |
| TableBulk.ClearIsRetainNothing | crates/graftx-handles/src/lib.rs:353-388 | `clear` equals `retain` rejecting everything, frees all live entries and leaves nothing resolving |
| TableBulk.IterListsContents | crates/graftx-handles/src/lib.rs:223-239 | `iter` lists the map once each in ascending slot order, every yielded handle resolving, `len` entries in all |
| TableBulk.WithKindExact | crates/graftx-handles/src/lib.rs:241-267 | `iter_kind` lists exactly the entries of `iter` of that kind, in slot order |
| TableBulk.KindsPartitionLen | crates/graftx-handles/src/lib.rs:245-317 | `kinds` is strictly ascending and exact, `iter_kind` agrees with `count_by_kind`, and the counts add up to `len` |
| HandleTables.HandleTable.Insert | crates/graftx-handles/src/lib.rs:125-143 | in-place insert: new state and handle are those of the table model |
| HandleTables.HandleTable.TryInsert | crates/graftx-handles/src/lib.rs:145-162 | inserts only below the quota, otherwise changes nothing |
| HandleTables.HandleTable.Get | crates/graftx-handles/src/lib.rs:164-174 | read-only resolution |
| HandleTables.HandleTable.Update | crates/graftx-handles/src/lib.rs:176-184 | write through `get_mut`, with the new state stated |
| HandleTables.HandleTable.Remove | crates/graftx-handles/src/lib.rs:192-209 | in-place removal, new state and result stated |
| HandleTables.HandleTable.Vacate | crates/graftx-handles/src/lib.rs:201-207 | the freeing bookkeeping shared by `remove`, `clear` and `retain` |
| HandleTables.HandleTable.Clear | crates/graftx-handles/src/lib.rs:372-388 | the loop over the slots computes the specified cleared table |
| HandleTables.HandleTable.Retain | crates/graftx-handles/src/lib.rs:410-434 | the loop over the slots computes the specified filtered table and count |
| HandleTables.HandleTable.Iter | crates/graftx-handles/src/lib.rs:230-239 | the listing the iterator yields |
| HandleTables.HandleTable.IterKind | crates/graftx-handles/src/lib.rs:252-267 | the listing of one kind |
| HandleTables.HandleTable.CountByKind | crates/graftx-handles/src/lib.rs:269-276 | counts the live slots of a kind |
| HandleTables.HandleTable.LiveKinds | crates/graftx-handles/src/lib.rs:307-317 | the sorted kinds of the live entries, without repeats |
| HandleTables.HandleTable.RetiredCount | crates/graftx-handles/src/lib.rs:337-339 | counts the retired slots |
| HandleTables.HandleTable.Snapshot | crates/graftx-handles/src/lib.rs:341-356 | the statistics are exact: live entries, retired slots, capacity and the kinds with live entries; live + free + retired = capacity and the kind counts sum to live |
| Handles.RawBijection | crates/graftx-protocol/src/lib.rs:2492-2522 | packing and the accessors are inverse in both directions |
| Handles.PackedFields | crates/graftx-protocol/src/lib.rs:2487-2497 | over-wide generations are reduced modulo 2^24 without touching kind or slot |
| Handles.RawFields | crates/graftx-protocol/src/lib.rs:2499-2512 | the kind is the top byte of a raw handle, the generation the 24 bits below it, the slot the low word |
| Wire.LittleEndianRoundTrip | crates/graftx-protocol/src/lib.rs:2549-2560 | a number that fits its width survives encoding |
| Wire.LittleEndianReencode | crates/graftx-protocol/src/lib.rs:2549-2560 | every byte string is the encoding of the number it reads as |
| Wire.LittleEndianDigits | crates/graftx-protocol/src/lib.rs:2536-2560 | byte i is the i-th base-256 digit, least significant first |
| Wire.DecodesIffLongEnough | crates/graftx-protocol/src/lib.rs:2536-2547 | a fixed body decodes if and only if it is at least as long as its fields together |
| Wire.FieldsRoundTrip | crates/graftx-protocol/src/lib.rs:290-297 | every body round-trips with any trailing bytes |
| Wire.FieldsReencode | crates/graftx-protocol/src/lib.rs:2536-2560 | what was decoded re-encodes to exactly the bytes consumed |
| Wire.FieldAt | crates/graftx-protocol/src/lib.rs:2536-2547 | each field is read from its own offset |
| Wire.ReplaceField | crates/graftx-protocol/src/lib.rs:2330-2341 | changing one field changes its own bytes and no others |
| Wire.Reader.Read | crates/graftx-protocol/src/lib.rs:2536-2560 | a bounds-checked read advances the position or leaves it alone |
| Wire.Reader.ReadFields | crates/graftx-protocol/src/lib.rs:2526-2560 | field-by-field reading computes the specified decoding |
| Protocol.FrameRoundTrip | crates/graftx-protocol/src/lib.rs:2439-2454 | every header and body come back from their frame |
| Protocol.DecodeFrameAccepts | crates/graftx-protocol/src/lib.rs:2448-2454 | `decode_frame` succeeds if and only if 28 bytes are there and the kind is 0, 1 or 2, with the exact error otherwise |
| Protocol.DecodeHeaderAccepts | crates/graftx-protocol/src/lib.rs:2344-2363 | a bare header is refused for a bad kind as soon as six bytes are there, and for its length only after that |
| Protocol.FrameReencode | crates/graftx-protocol/src/lib.rs:2330-2364 | re-encoding a decoded frame restores every byte but the two reserved ones |
| Protocol.HandshakeRoundTrip | crates/graftx-protocol/src/lib.rs:2379-2436 | HELLO and WELCOME round-trip with trailing bytes and decode exactly from 12 and 20 bytes on |
| Protocol.HandshakeReencode | crates/graftx-protocol/src/lib.rs:2366-2436 | a decoded handshake body re-encodes to exactly the bytes consumed; a short one is the end of the buffer |
| Protocol.OpcodeParts | crates/graftx-protocol/src/lib.rs:87-103 | opcodes and pairs of API byte and 24-bit call id are the same thing; wider call ids are cut |
| Protocol.ReadHeader | crates/graftx-protocol/src/lib.rs:2344-2363 | the reader-driven header decoder, rejecting a bad kind before reading further |
| Protocol.ReadFrame | crates/graftx-protocol/src/lib.rs:2448-2454 | the frame decoder as run |
| Protocol.WriteHeader | crates/graftx-protocol/src/lib.rs:2332-2341 | appending the header fields one by one yields the specified 28 bytes |
| Protocol.WriteFrame | crates/graftx-protocol/src/lib.rs:2439-2444 | header then body |
| Bodies.CallRoundTrip | crates/graftx-protocol/src/lib.rs:297-902 | every Vulkan and video request body decodes to the call it encodes |
| Bodies.CallAccepts | crates/graftx-protocol/src/lib.rs:297-902 | a request body decodes if and only if its opcode is implemented and it is long enough; the error says which failed |
| Bodies.CallReencode | crates/graftx-protocol/src/lib.rs:297-902 | a decoded request re-encodes to the bytes consumed, under the same opcode |
| Bodies.DevicesExact | crates/graftx-protocol/src/lib.rs:385-394 | the counted device list decodes if and only if length >= 4 + 8 * count, and re-encodes to the bytes consumed |
| Bodies.DevicesRoundTrip | crates/graftx-protocol/src/lib.rs:378-394 | a device list round-trips if and only if its length fits the 32-bit count |
| Bodies.HandleBodyRoundTrip | crates/graftx-protocol/src/lib.rs:329-341 | handle-only reply bodies round-trip |
| Bodies.WordBodyRoundTrip | crates/graftx-protocol/src/lib.rs:1747-1766 | the frame-index reply body round-trips |
| Layouts.FrameLayout | crates/graftx-protocol/src/lib.rs:2324-2341 | a frame is the 28 header bytes, each field at its offset, and then the body |
| Layouts.HandshakeLayout | crates/graftx-protocol/src/lib.rs:2366-2436 | the HELLO and WELCOME bodies byte by byte |
| Layouts.CallLayout | crates/graftx-protocol/src/lib.rs:297-902 | every request body is its fields in the documented order, byte by byte |
| Layouts.HandleLayout | crates/graftx-protocol/src/lib.rs:2487-2522 | a handle on the wire is slot, generation and kind, least significant byte first |
| Layouts.DevicesLayout | crates/graftx-protocol/src/lib.rs:378-394 | the count comes first and device i sits at offset 4 + 8 i |
| Layouts.AnswerLayout | crates/graftx-server/src/backend.rs:197-428 | a success answers the handle made, the frame index, the one-device list, or no bytes at all |
| Bodies.WriteCall | crates/graftx-protocol/src/lib.rs:309-900 | appending each request field by field yields the specified body |
| Bodies.ReadCall | crates/graftx-protocol/src/lib.rs:314-900 | the reader-driven request decoder |
| Bodies.WriteDevices | crates/graftx-protocol/src/lib.rs:378-383 | the encoding loop of the device list, with the truncating count cast |
| Bodies.ReadDevices | crates/graftx-protocol/src/lib.rs:386-394 | the decoding loop of the device list |
| BackendObjects.VulkanBackend.Create | crates/graftx-server/src/backend.rs:209-361 | the creation arms: reject without a live parent, else mint in the right table |
| BackendObjects.VulkanBackend.RecordCommand | crates/graftx-server/src/backend.rs:382-397 | the saturating bump of a live command buffer |
| BackendObjects.VulkanBackend.Acknowledge | crates/graftx-server/src/backend.rs:312-423 | the arms that bind, submit, record and destroy |
| BackendObjects.VulkanBackend.Handle | crates/graftx-server/src/backend.rs:197-428 | the whole dispatch equals the byte-level step; an error leaves all eight tables as they were |
| BackendObjects.VideoBackend.Handle | crates/graftx-server/src/video_backend.rs:68-125 | the video dispatch equals its byte-level step; an error leaves the sessions as they were |
| ObjectGraphs.VkAcceptsExactly | crates/graftx-server/src/backend.rs:208-423 | the backend accepts exactly the calls the object graph accepts |
| ObjectGraphs.VkRefinesGraph | crates/graftx-server/src/backend.rs:208-423 | every accepted call changes one of eight maps in one place, answers with what it made, and keeps every other object |
| ObjectGraphs.VkCreateRefines | crates/graftx-server/src/backend.rs:209-361 | the creating calls mint one fresh object with the recorded parent and parameters |
| ObjectGraphs.VkChangeRefines | crates/graftx-server/src/backend.rs:312-423 | the other calls bind, count or drop one object and nothing else |
| ObjectGraphs.InsertMints | crates/graftx-handles/src/lib.rs:125-143 | in any table, a minted object is new and all others are kept |
| ObjectGraphs.RemoveDrops | crates/graftx-handles/src/lib.rs:192-209 | in any table, a removal drops one object and never revives any |
| VulkanRuns.ReachableSafe | crates/graftx-server/src/backend.rs:218-361 | in every reachable state each recorded instance, physical device and device resolves, bound memories and pools were issued, and all table invariants hold |
| VulkanRuns.ParentsStayLive | crates/graftx-server/src/backend.rs:223-357 | no call can strand a recorded parent |
| VulkanRuns.RunKept | crates/graftx-server/src/backend.rs:197-428 | over any stretch of a run, whatever resolves at the end and was issued at the start was the same object at the start |
| VulkanRuns.BoundMemoryIsTheSameObject | crates/graftx-server/src/backend.rs:312-327 | a bound buffer stays bound as it was; its memory handle resolves to the same object throughout or to nothing |
| VulkanRuns.CommandPoolIsTheSameObject | crates/graftx-server/src/backend.rs:345-361 | once a command buffer has been seen, the pool it records stays recorded and resolves at every later step to the same object or to nothing |
| VulkanRuns.StepIsApply | crates/graftx-server/src/backend.rs:197-428 | a message either makes one accepted call or changes nothing |
| VulkanRuns.RejectionsAreExact | crates/graftx-server/src/backend.rs:208-427 | a message the graph rejects fails as a short body if its opcode is implemented and the body too short, and as an unknown opcode otherwise, with nothing changed |
| VulkanHistories.BoundAtMostOnce | crates/graftx-server/src/backend.rs:318-327 | over any run at most one binding is made on a buffer and a live buffer shows exactly it |
| VulkanHistories.BoundMemoryIsTheOneBound | crates/graftx-server/src/backend.rs:312-327 | every binding seen was made by one earlier message while the memory was live, and the handle still means that memory or nothing |
| VulkanHistories.CommandPoolIsTheOneAllocatedFrom | crates/graftx-server/src/backend.rs:345-361 | every live command buffer was answered by one earlier message, naming a pool live then, and its pool handle still means that pool, unchanged, or nothing |
| VulkanHistories.RecordedCountsCommands | crates/graftx-server/src/backend.rs:373-397 | `recorded` is the number of accepted copies and draws naming the command buffer, capped at 2^32 - 1 |
| VulkanHistories.HistoriesMatch | crates/graftx-server/src/backend.rs:312-397 | bindings and counts match the history after every prefix of every run |
| VideoRuns.DecodeReturnsFrameNumber | crates/graftx-server/src/video_backend.rs:95-112 | the k-th decode on a session answers min(k, 2^32 - 1), and a session in a reused slot starts at 0 |
| VideoRuns.FramesRun | crates/graftx-server/src/video_backend.rs:79-119 | a live session's counter is the number of decodes on it, after every prefix of every run |
| VideoRuns.VideoAcceptsExactly | crates/graftx-server/src/video_backend.rs:79-123 | creating is always accepted, decoding and destroying if and only if the session is live |
| VideoRuns.VideoRefinesMap | crates/graftx-server/src/video_backend.rs:79-119 | a creation mints one session at frame 0, a decode answers its counter and bumps it up to 2^32 - 1, a destruction removes it, and no other session changes |
| VideoRuns.VideoRejectionsAreExact | crates/graftx-server/src/video_backend.rs:68-124 | a rejected message fails as a short body or an unknown opcode, by opcode and length, with nothing changed |
| VideoRuns.DestroyedStaysGone | crates/graftx-server/src/video_backend.rs:111-119 | once destroyed, a session handle is never accepted again over any run |
| SessionRuns.ServedVulkanIsSafe | crates/graftx-server/src/session.rs:106-115 | whatever frames a session is handed, its Vulkan backend is in the state after exactly the messages routed to it, where every reachability theorem applies |
| SessionRuns.ServedVideoCounts | crates/graftx-server/src/session.rs:106-115 | likewise for the video backend, whose frame counters count the decodes routed to it |
| SessionRuns.VulkanFollowsRouted | crates/graftx-server/src/session.rs:106-115 | from any state of the Vulkan backend, a run of frames continues it by the messages routed to it |
| SessionRuns.FrameRoutes | crates/graftx-server/src/session.rs:66-117 | one frame changes a backend as the one message it routes there, or not at all |
| ServedCalls.RefusalsAreExact | crates/graftx-server/src/session.rs:66-117 | for every honest frame of a registered Vulkan or video API: `UnexpectedEof` for a short body, `UnknownOpcode` naming the opcode for a call the objects do not accept, a reply otherwise |
| ServedCalls.RefusedCallNamed | crates/graftx-server/src/backend.rs:208-427 | a client call the objects do not accept is answered `UnknownOpcode` of that call's opcode, with nothing changed |
| ServedCalls.AcceptedCallAnswered | crates/graftx-server/src/session.rs:50-61 | an accepted call gets one response under its opcode, its request id and the session's number, whose body is exactly the answer's bytes |
| ServedCalls.DirectIffAcceptable | crates/graftx-server/src/backend.rs:208-427 | a call works directly exactly when the maps of objects accept it |
| Sessions.HandleFailsAtomically | crates/graftx-server/src/session.rs:66-117 | a failed frame leaves the session and its backends as they were |
| Sessions.BackendsFailAtomically | crates/graftx-server/src/backend.rs:197-428 | the modelled backends change nothing when they fail |
| Sessions.OnlyHonestFramesAccepted | crates/graftx-server/src/session.rs:69-78 | a frame that gets a reply has exactly its declared body, within the cap; the two framing errors are exact |
| Sessions.UnregisteredApiRejected | crates/graftx-server/src/session.rs:106-115 | a well-framed call of an API with no backend is an unknown opcode and changes nothing |
| Sessions.RegisteredApiAnswers | crates/graftx-server/src/session.rs:106-112 | an honest frame of a registered API, whatever its version, flags, kind and number, is answered by the backend's body under the next number or by the backend's own error, for any backends |
| Sessions.NoopAnswered | crates/graftx-server/src/session.rs:103 | an honest no-op gets an empty body under the next number, handshook or not |
| Sessions.HelloAnswered | crates/graftx-server/src/session.rs:81-101 | an honest HELLO on any session: end of buffer below 12 bytes, `BadVersion` with the client's version, or the negotiated cap and a WELCOME |
| Sessions.MalformedFrameRejected | crates/graftx-server/src/session.rs:67 | bytes that are no frame are refused with the decoder's error and change nothing |
| Sessions.HelloAccepted | crates/graftx-server/src/session.rs:81-88 | HELLO is accepted if and only if the body has 12 bytes and major version 0 |
| Sessions.HelloNegotiates | crates/graftx-server/src/session.rs:89-100 | the negotiated cap is the minimum with 1 MiB, in force at once and told to the client |
| Sessions.CapStep | crates/graftx-server/src/session.rs:70-90 | one frame never raises the cap above 1 MiB, nor changes a cap below 12 |
| Sessions.CapOverRuns | crates/graftx-server/src/session.rs:70-90 | the same over whole runs |
| Sessions.HandleNumbers | crates/graftx-server/src/session.rs:44-61 | a success echoes opcode and request id under the next sequence number; a failure uses none |
| Sessions.RunNumbers | crates/graftx-server/src/session.rs:44-61 | over any run replies are numbered consecutively, with no gaps |
| Sessions.FreshSessionCounts | crates/graftx-server/src/session.rs:44-61 | in a fresh session the n-th reply has sequence number n, modulo 2^64 |
| NonInterference.OtherApisDoNotInterfere | crates/graftx-server/src/session.rs:106-115 | keeping only the HELLOs and one API's frames leaves each kept frame its error or its reply bytes, but for the sequence number |
| NonInterference.ConcernedStep | crates/graftx-server/src/session.rs:66-117 | two sessions that agree for an API answer its frames alike and still agree |
| NonInterference.UnconcernedStep | crates/graftx-server/src/session.rs:106-115 | a frame of another API changes nothing the API could notice |
| NonInterference.RepliesDifferInStamp | crates/graftx-server/src/session.rs:50-61 | replies under different numbers differ in bytes 16 to 23 at most |
| SessionObjects.SessionObject.constructor | crates/graftx-server/src/session.rs:27-35 | a new session: full cap, no handshake, first number 1, no backends |
| SessionObjects.SessionObject.Register | crates/graftx-server/src/session.rs:39-42 | registration adds or replaces the backend of its own namespace |
| SessionObjects.SessionObject.Reply | crates/graftx-server/src/session.rs:50-61 | frames a reply and advances the counter |
| SessionObjects.SessionObject.Greet | crates/graftx-server/src/session.rs:81-101 | the HELLO arm on the object |
| SessionObjects.SessionObject.Route | crates/graftx-server/src/session.rs:106-115 | routing to a backend object that changes in place |
| SessionObjects.SessionObject.Handle | crates/graftx-server/src/session.rs:66-117 | the whole method equals the session model on the state before |
| Streams.ReceivesWhatWasSent | crates/graftx-transport/src/stream.rs:54-87 | sent frames are received in order: all of them and then end of stream, or exactly those before the first over-long one and then `InvalidData` |
| Streams.TruncationYieldsPrefix | crates/graftx-transport/src/stream.rs:63-87 | cutting the stream anywhere yields exactly the frames that had arrived whole, then end of file |
| Streams.WholeFramesBound | crates/graftx-transport/src/stream.rs:63-87 | which frames had arrived whole, by their byte lengths |
| Streams.ResendReproduces | crates/graftx-transport/src/stream.rs:54-87 | for any bytes, re-sending the received frames reproduces exactly the bytes consumed: the next receive after them is the reported error |
| Streams.StreamTransport.Send | crates/graftx-transport/src/stream.rs:54-61 | writes length and frame, or refuses an over-long frame |
| Streams.StreamTransport.Recv | crates/graftx-transport/src/stream.rs:63-87 | reads the header, checks the cap, then reads the body |
| Serving.MeteredSimulatesPlain | crates/graftx-server/src/serve.rs:91-129 | for every script of receive and send outcomes the instrumented loop returns the same result, sends the same frames and leaves the same session |
| Serving.LoopOutcome | crates/graftx-server/src/serve.rs:54-76 | for every inbox and every plan of sends the loop stops at the first unhandled frame, refused send or closing error, and result, replies sent and final session are determined by which comes first |
| Serving.CloseDecidesResult | crates/graftx-server/src/serve.rs:54-76 | a loop ends in an error only if every frame was handled and the receive error was neither end of file nor a broken pipe |
| Serving.ServesLongestPrefix | crates/graftx-server/src/serve.rs:54-76 | on a finite inbox the loop ends normally with the replies of the longest handled prefix sent and the session in the state after it |
| Serving.LogCoversReplies | crates/graftx-server/src/serve.rs:107-122 | one record per reply sent, in order, under the request's API name and with both frame lengths |
| Serving.UnknownNeverRecorded | crates/graftx-server/src/serve.rs:27-43 | "unknown" is never recorded when backends sit under real API ids |
| Serving.KnownNames | crates/graftx-server/src/serve.rs:27-43 | the twelve API names are distinct from each other and from "unknown" |
| Serving.LabelsByApi | crates/graftx-server/src/serve.rs:27-43 | every frame is recorded under the name of its own API, bytes beyond the known ones as unknown |
| ServedCalls.CallRecordedUnderItsApi | crates/graftx-server/src/serve.rs:107-122 | a served call is recorded as "vulkan" or "video", by its API, with the lengths of its two frames |
| Serving.ServedMetricsConserved | crates/graftx-server/src/serve.rs:113-122 | after serving, each API's counters are the true sums clamped at 2^64 - 1 |
| ServeLoops.Endpoint.Send | crates/graftx-transport/src/vecq.rs:49-52 | send on a scripted transport appends to the outbox |
| ServeLoops.Endpoint.Recv | crates/graftx-transport/src/vecq.rs:54-58 | receive on a scripted transport pops the inbox or reports end of file |
| ServeLoops.RunTurn | crates/graftx-server/src/serve.rs:55-75 | the loop body: receive, handle, send |
| ServeLoops.RunServe | crates/graftx-server/src/serve.rs:54-76 | the plain loop computes its model |
| ServeLoops.RunServeWithMetrics | crates/graftx-server/src/serve.rs:91-129 | the instrumented loop computes its model and appends its records to the registry |
| Obs.RegistryConserves | crates/graftx-obs/src/lib.rs:45-49 | an API's counters are its true sums clamped at 2^64 - 1, and only recorded APIs have entries |
| Obs.TotalInAnyOrder | crates/graftx-obs/src/registry.rs:158-165 | merging the entries in any order gives the clamped grand sum |
| Obs.ObsRegistry.Record | crates/graftx-obs/src/registry.rs:106-111 | records in place and keeps the registry equal to its log |
| Obs.ObsRegistry.Reset | crates/graftx-obs/src/registry.rs:151-153 | empties the registry |
| Obs.ObsRegistry.Total | crates/graftx-obs/src/registry.rs:158-165 | the loop over the hash map returns the clamped grand sum whatever the order |
| Obs.ObsRegistry.SnapshotSorted | crates/graftx-obs/src/registry.rs:135-144 | lists every API once, in ascending name order, with its true sums clamped |
| Obs.ObsRegistry.Report | crates/graftx-obs/src/registry.rs:173-179 | the sorted rows, and a total row that is the clamped grand sum of everything recorded |
| Obs.AscendingListingUnique | crates/graftx-obs/src/registry.rs:130-144 | there is one ascending listing of the APIs, so the report does not depend on the order of the hash map |
| Clients.ShimIsTransparent | crates/graftx-client/src/vk.rs:36-118 | a shim returns the direct operation's answer and the backends change as directly; a rejected call or one over the cap shows as end of stream with tables unchanged; no shim check fires |
| Clients.ExchangeIsDirect | crates/graftx-client/src/vk.rs:53-62 | one exchange at a quiet link yields the reply body of the direct operation and advances the session by one number, or closes the link |
| Clients.RemotingIsTransparent | crates/graftx-client/src/vk.rs:36-683 | over any run of calls and under any negotiated cap the shims return the direct answers, then end of stream at the first call rejected or over the cap, then broken pipes, and the backends end as directly |
| Clients.AmpleCapNeverFelt | crates/graftx-client/src/vk.rs:36-683 | from 32 bytes on the cap turns no call down |
| Clients.ConnectedCallsAreTransparent | crates/graftx-client/src/client.rs:37-45 | the same from a fresh session through the handshake, where no cap is felt |
| Clients.ConnectNegotiates | crates/graftx-client/src/lib.rs:57-86 | connecting to a fresh session negotiates 1 MiB and starts both counters at 2 |
| Clients.ConnectInStep | crates/graftx-client/src/client.rs:37-45 | a client connected to a fresh session is in step with it, both at number 2 |
| Clients.ConnectedRunInLockstep | crates/graftx-client/src/client.rs:37-61 | over a whole run from a fresh connection, demand k goes out under request id and sequence number k + 2, succeeds exactly if the session replies, and its reply carries both numbers; request ids differ until the 32-bit counter saturates |
| Clients.ClientAndSessionInLockstep | crates/graftx-client/src/client.rs:37-61 | from any client in step, after k successful demands both sides stand k numbers further, the request id capped at 2^32 - 1 |
| Clients.DemandAnswered | crates/graftx-client/src/client.rs:64-88 | a demand succeeds exactly when the session replies to its frame |
| Clients.CountersAdvance | crates/graftx-client/src/client.rs:52-61 | every demand takes a new pair of ids, failed or not, and both counters saturate |
| Clients.RequestAndReplyShareNumbers | crates/graftx-client/src/client.rs:52-61 | a demand's request and its reply carry the same request id and sequence number |
| Clients.DemandKeepsStep | crates/graftx-client/src/client.rs:55-61 | a successful demand moves client and session one number on together |
| Clients.AnswersFit | crates/graftx-client/src/vk.rs:64-68 | every answer has the handle kind its shim checks for |
| ReplyChecks.ShimRefusesWrongReplies | crates/graftx-client/src/vk.rs:53-70 | whatever frame the link delivers next, a shim returns an answer only from a response under its own opcode, else `UnexpectedReply` with that opcode and kind |
| ReplyChecks.NoopRefusesWrongReplies | crates/graftx-client/src/lib.rs:87-110 | a no-op succeeds exactly on a no-op response |
| ReplyChecks.ConnectRefusesWrongReplies | crates/graftx-client/src/lib.rs:57-86 | connecting succeeds exactly on a whole WELCOME response, with the session id it carries |
| ReplyChecks.RepliesCheckedExactly | crates/graftx-client/src/vk.rs:56-62 | a reply passes if and only if opcode and kind are right, and is otherwise reported by both |
| ReplyChecks.BrokenRepliesReported | crates/graftx-client/src/vk.rs:55-56 | undecodable replies and failed receives are reported as such |
| ReplyChecks.UnsentRequestsReported | crates/graftx-transport/src/stream.rs:54-61 | a request that cannot go out is reported as its send failed, with nothing changed |
| ReplyChecks.KindsCheckedExactly | crates/graftx-client/src/vk.rs:110-116 | the first handle of another kind is reported, and nothing else is |
| ReplyChecks.HandleAnswersChecked | crates/graftx-client/src/vk.rs:63-70 | a handle reply is returned only with the expected kind, else `BadKind` of the kind it has |
| ReplyChecks.DeviceAnswersChecked | crates/graftx-client/src/vk.rs:109-117 | a device list is returned only if every handle is a physical device |
| ReplyChecks.ShortDevicesReported | crates/graftx-protocol/src/lib.rs:386-394 | a device list shorter than its count says is the end of the buffer |
| ReplyChecks.OtherAnswersChecked | crates/graftx-client/src/vk.rs:36-683 | frame indices are read back or cut short; acknowledgements take any body |
| Clients.DemandFrameDecodes | crates/graftx-client/src/vk.rs:42-53 | a demand goes out as a request of this version, without flags, honest about its length |
| Clients.HelloFrameDecodes | crates/graftx-client/src/lib.rs:57-76 | the opening frame offers this version, no features and 1 MiB under id and number 1 |
| Clients.SessionAppliesCall | crates/graftx-server/src/session.rs:66-117 | a call's request frame makes the session apply the call and answer under the next number |
| ClientObjects.ServedLink.Send | crates/graftx-transport/src/lib.rs:65-69 | sending to a closed peer is a broken pipe, otherwise the bytes go up |
| ClientObjects.ServedLink.ServerTurn | crates/graftx-server/src/serve.rs:55-75 | the far end serves one frame over its stream transport or stops |
| ClientObjects.ServedLink.Recv | crates/graftx-transport/src/lib.rs:71-75 | receiving waits for the far end's turn |
| ClientObjects.ServedLink.Exchange | crates/graftx-client/src/vk.rs:53-62 | send, receive, decode, check opcode and kind |
| ClientObjects.ServedLink.CheckDevices | crates/graftx-client/src/vk.rs:110-116 | the loop over the returned devices |
| ClientObjects.ServedLink.Shim | crates/graftx-client/src/vk.rs:36-683 | any shim, by the call it makes |
| ClientObjects.ClientObject.NextIds | crates/graftx-client/src/client.rs:55-61 | both counters advance, saturating |
| ClientObjects.ClientObject.Demand | crates/graftx-client/src/client.rs:64-88 | takes the next ids and runs the shim |
| ClientObjects.Connect | crates/graftx-client/src/client.rs:37-45 | handshake, then counters at 2 |
| Traces.ClientRunReplays | crates/graftx-trace/src/lib.rs:117-133 | a recording started at any point of a client's life holds exactly the requests that went out from there, and serving them to the session as it was then reproduces every reply byte and the final session |
| Traces.ReplayIsFaithful | crates/graftx-trace/src/lib.rs:101-141 | recording any sequence of request frames and serving the recorded requests from the starting session reproduces the replies and the final state |
| Traces.ConnectedRunReplays | crates/graftx-trace/src/lib.rs:101-141 | everything a client does on a fresh session, handshake included: replay re-sends exactly the requests that went out, and serving those afresh gives every recorded reply byte for byte and the same final session |
| Traces.ConnectedTraceNumbers | crates/graftx-client/src/client.rs:37-61 | in that trace the k-th request and the k-th reply both carry request id k, capped, and sequence number k, and all requests but perhaps the last were answered |
| Traces.ConnectedRunIsRecorded | crates/graftx-trace/src/lib.rs:101-113 | recording such a client from its first frame on leaves the link as its own run does |
| Traces.HelloFrameIsRequest | crates/graftx-client/src/lib.rs:57-76 | the opening frame counts as a request |
| Traces.ReplaySendsRequests | crates/graftx-trace/src/lib.rs:126-133 | replay sends the requests in order up to the first refused send and passes on that very failure |
| Traces.RequestsByKind | crates/graftx-trace/src/lib.rs:135-141 | a frame counts as a request exactly if it has a whole header whose kind field is 0 |
| Traces.RunIsRecorded | crates/graftx-trace/src/lib.rs:101-113 | recording does not disturb the run it records |
| Traces.RecordingAlternates | crates/graftx-trace/src/lib.rs:101-113 | a recorded run keeps capture order: requests and what came back alternate, each request followed by its own reply |
| Traces.DemandFramesAreRequests | crates/graftx-trace/src/lib.rs:135-141 | the client's frames count as requests |
| Traces.RunFramesAreRequests | crates/graftx-trace/src/lib.rs:135-141 | every frame of a client run counts as a request and is within the transport cap |
| Traces.RepliesSmall | crates/graftx-trace/src/lib.rs:135-141 | replies do not count as requests |
| ClientObjects.RecordingTransport.Send | crates/graftx-trace/src/lib.rs:102-106 | records a frame once its send succeeded |
| ClientObjects.RecordingTransport.Recv | crates/graftx-trace/src/lib.rs:108-112 | records a frame once its receive succeeded |
| ClientObjects.RecordingTransport.RecordExchange | crates/graftx-trace/src/lib.rs:101-113 | one exchange through the recorder |
| ClientObjects.RunReplay | crates/graftx-trace/src/lib.rs:126-133 | the replay loop computes its model |

## Left out

- Sockets, threads, channels, locks and their poisoning, tracing spans, timers and the process-global registry: I/O or library behaviour.
- The nine other backends and their shims: the same create, look up and remove pattern.
- Command line, benchmark, load test, fuzzing and developer tooling: wrappers around the modelled layers.
- Allocation: the capacity a decoder reserves before reading a device list is not modelled.
- Latency histograms and the text and JSON form of reports: formatting only.
- HandleTables.HandleTable.Update: stands for `get_mut` and one write through the reference it returns; the lifetime of the reference is not modelled.
- Serving.UnknownNeverRecorded: assumes backends registered under API ids 0 to 11, which is all `register` can produce from the API id type.
- Clients.ConnectedRunInLockstep: stops at sequence number 2^64 - 1, where the client saturates and the session wraps.
- VulkanRuns.ReachableSafe: assumes that no table has grown past 2^32 slots, which is exactly when identities stay unique.
