/** Vulkan and video request bodies, the counted device list, and the reply bodies. */
module Bodies {
  import opened Prelude
  import opened Handles
  import opened Wire
  import opened Protocol

  const CREATE_INSTANCE: u32 := 0x0100_0001
  const ENUMERATE_PHYSICAL_DEVICES: u32 := 0x0100_0003
  const CREATE_DEVICE: u32 := 0x0100_0005
  const GET_DEVICE_QUEUE: u32 := 0x0100_0007
  const ALLOCATE_MEMORY: u32 := 0x0100_0010
  const CREATE_BUFFER: u32 := 0x0100_0011
  const BIND_BUFFER_MEMORY: u32 := 0x0100_0012
  const DESTROY_BUFFER: u32 := 0x0100_0013
  const FREE_MEMORY: u32 := 0x0100_0014
  const CREATE_COMMAND_POOL: u32 := 0x0100_0020
  const ALLOCATE_COMMAND_BUFFER: u32 := 0x0100_0021
  const QUEUE_SUBMIT: u32 := 0x0100_0022
  const CMD_COPY_BUFFER: u32 := 0x0100_0023
  const CMD_DRAW: u32 := 0x0100_0024
  const DESTROY_COMMAND_POOL: u32 := 0x0100_0025

  const CREATE_DECODE_SESSION: u32 := 0x0700_0001
  const DECODE_FRAME: u32 := 0x0700_0002
  const DESTROY_SESSION: u32 := 0x0700_0003

  /** A decoded request of either modelled API, named after its opcode. */
  datatype Call =
    | CreateInstance(appApiVersion: u32)
    | EnumeratePhysicalDevices(instance: Handle)
    | CreateDevice(physicalDevice: Handle)
    | GetDeviceQueue(device: Handle, family: u32, index: u32)
    | AllocateMemory(device: Handle, size: u64)
    | CreateBuffer(device: Handle, size: u64, usage: u32)
    | BindBufferMemory(buffer: Handle, memory: Handle, offset: u64)
    | DestroyBuffer(buffer: Handle)
    | FreeMemory(memory: Handle)
    | CreateCommandPool(device: Handle, family: u32)
    | AllocateCommandBuffer(pool: Handle)
    | QueueSubmit(queue: Handle, commandBuffer: Handle)
    | CmdCopyBuffer(commandBuffer: Handle, src: Handle, dst: Handle, size: u64)
    | CmdDraw(commandBuffer: Handle, vertexCount: u32, instanceCount: u32)
    | DestroyCommandPool(pool: Handle)
    | CreateDecodeSession(codec: u32, width: u32, height: u32)
    | DecodeVideoFrame(session: Handle, bitstreamLen: u32)
    | DestroySession(session: Handle)

  function OpcodeOf(c: Call): u32 {
    match c
    case CreateInstance(_) => CREATE_INSTANCE
    case EnumeratePhysicalDevices(_) => ENUMERATE_PHYSICAL_DEVICES
    case CreateDevice(_) => CREATE_DEVICE
    case GetDeviceQueue(_, _, _) => GET_DEVICE_QUEUE
    case AllocateMemory(_, _) => ALLOCATE_MEMORY
    case CreateBuffer(_, _, _) => CREATE_BUFFER
    case BindBufferMemory(_, _, _) => BIND_BUFFER_MEMORY
    case DestroyBuffer(_) => DESTROY_BUFFER
    case FreeMemory(_) => FREE_MEMORY
    case CreateCommandPool(_, _) => CREATE_COMMAND_POOL
    case AllocateCommandBuffer(_) => ALLOCATE_COMMAND_BUFFER
    case QueueSubmit(_, _) => QUEUE_SUBMIT
    case CmdCopyBuffer(_, _, _, _) => CMD_COPY_BUFFER
    case CmdDraw(_, _, _) => CMD_DRAW
    case DestroyCommandPool(_) => DESTROY_COMMAND_POOL
    case CreateDecodeSession(_, _, _) => CREATE_DECODE_SESSION
    case DecodeVideoFrame(_, _) => DECODE_FRAME
    case DestroySession(_) => DESTROY_SESSION
  }

  /** Field widths of the request body of each implemented opcode. */
  function Widths(opcode: u32): Option<seq<nat>> {
    if opcode == CREATE_INSTANCE then Some([4])
    else if opcode in {ENUMERATE_PHYSICAL_DEVICES, CREATE_DEVICE, DESTROY_BUFFER, FREE_MEMORY,
                       ALLOCATE_COMMAND_BUFFER, DESTROY_COMMAND_POOL, DESTROY_SESSION} then Some([8])
    else if opcode in {GET_DEVICE_QUEUE, CMD_DRAW} then Some([8, 4, 4])
    else if opcode in {ALLOCATE_MEMORY, QUEUE_SUBMIT} then Some([8, 8])
    else if opcode == CREATE_BUFFER then Some([8, 8, 4])
    else if opcode == BIND_BUFFER_MEMORY then Some([8, 8, 8])
    else if opcode in {CREATE_COMMAND_POOL, DECODE_FRAME} then Some([8, 4])
    else if opcode == CMD_COPY_BUFFER then Some([8, 8, 8, 8])
    else if opcode == CREATE_DECODE_SESSION then Some([4, 4, 4])
    else None
  }

  function Values(c: Call): seq<nat> {
    match c
    case CreateInstance(v) => [v]
    case EnumeratePhysicalDevices(h) => [ToRaw(h)]
    case CreateDevice(h) => [ToRaw(h)]
    case GetDeviceQueue(h, family, index) => [ToRaw(h), family, index]
    case AllocateMemory(h, size) => [ToRaw(h), size]
    case CreateBuffer(h, size, usage) => [ToRaw(h), size, usage]
    case BindBufferMemory(b, m, offset) => [ToRaw(b), ToRaw(m), offset]
    case DestroyBuffer(h) => [ToRaw(h)]
    case FreeMemory(h) => [ToRaw(h)]
    case CreateCommandPool(h, family) => [ToRaw(h), family]
    case AllocateCommandBuffer(h) => [ToRaw(h)]
    case QueueSubmit(q, cb) => [ToRaw(q), ToRaw(cb)]
    case CmdCopyBuffer(cb, src, dst, size) => [ToRaw(cb), ToRaw(src), ToRaw(dst), size]
    case CmdDraw(cb, vertices, instances) => [ToRaw(cb), vertices, instances]
    case DestroyCommandPool(h) => [ToRaw(h)]
    case CreateDecodeSession(codec, width, height) => [codec, width, height]
    case DecodeVideoFrame(h, len) => [ToRaw(h), len]
    case DestroySession(h) => [ToRaw(h)]
  }

  function U32(v: nat): u32
    requires v < Pow256(4)
  {
    WordSizes();
    v
  }

  function U64(v: nat): u64
    requires v < Pow256(8)
  {
    WordSizes();
    v
  }

  function HandleFrom(v: nat): Handle
    requires v < Pow256(8)
  {
    FromRaw(U64(v))
  }

  function Build(opcode: u32, vs: seq<nat>): Call
    requires Widths(opcode).Some? && Fits(Widths(opcode).value, vs)
  {
    if opcode == CREATE_INSTANCE then CreateInstance(U32(vs[0]))
    else if opcode == ENUMERATE_PHYSICAL_DEVICES then EnumeratePhysicalDevices(HandleFrom(vs[0]))
    else if opcode == CREATE_DEVICE then CreateDevice(HandleFrom(vs[0]))
    else if opcode == GET_DEVICE_QUEUE then GetDeviceQueue(HandleFrom(vs[0]), U32(vs[1]), U32(vs[2]))
    else if opcode == ALLOCATE_MEMORY then AllocateMemory(HandleFrom(vs[0]), U64(vs[1]))
    else if opcode == CREATE_BUFFER then CreateBuffer(HandleFrom(vs[0]), U64(vs[1]), U32(vs[2]))
    else if opcode == BIND_BUFFER_MEMORY then BindBufferMemory(HandleFrom(vs[0]), HandleFrom(vs[1]), U64(vs[2]))
    else if opcode == DESTROY_BUFFER then DestroyBuffer(HandleFrom(vs[0]))
    else if opcode == FREE_MEMORY then FreeMemory(HandleFrom(vs[0]))
    else if opcode == CREATE_COMMAND_POOL then CreateCommandPool(HandleFrom(vs[0]), U32(vs[1]))
    else if opcode == ALLOCATE_COMMAND_BUFFER then AllocateCommandBuffer(HandleFrom(vs[0]))
    else if opcode == QUEUE_SUBMIT then QueueSubmit(HandleFrom(vs[0]), HandleFrom(vs[1]))
    else if opcode == CMD_COPY_BUFFER then
      CmdCopyBuffer(HandleFrom(vs[0]), HandleFrom(vs[1]), HandleFrom(vs[2]), U64(vs[3]))
    else if opcode == CMD_DRAW then CmdDraw(HandleFrom(vs[0]), U32(vs[1]), U32(vs[2]))
    else if opcode == DESTROY_COMMAND_POOL then DestroyCommandPool(HandleFrom(vs[0]))
    else if opcode == CREATE_DECODE_SESSION then CreateDecodeSession(U32(vs[0]), U32(vs[1]), U32(vs[2]))
    else if opcode == DECODE_FRAME then DecodeVideoFrame(HandleFrom(vs[0]), U32(vs[1]))
    else DestroySession(HandleFrom(vs[0]))
  }

  lemma RawBack(h: Handle)
    ensures HandleFrom.requires(ToRaw(h)) && HandleFrom(ToRaw(h)) == h
  {
    hide ToRaw, FromRaw;
    WordSizes();
    RawBijection(h, 0);
  }

  lemma ValuesFit(c: Call)
    ensures Widths(OpcodeOf(c)).Some? && Fits(Widths(OpcodeOf(c)).value, Values(c))
  {
    hide ToRaw;
    WordSizes();
  }

  /** Building from a call's own field values gives the call back. */
  lemma BuildValues(c: Call)
    ensures Widths(OpcodeOf(c)).Some? && Fits(Widths(OpcodeOf(c)).value, Values(c))
    ensures Build(OpcodeOf(c), Values(c)) == c
  {
    hide ToRaw, FromRaw;
    ValuesFit(c);
    forall h: Handle ensures HandleFrom.requires(ToRaw(h)) && HandleFrom(ToRaw(h)) == h {
      RawBack(h);
    }
  }

  function EncodeCall(c: Call): seq<byte> {
    ValuesFit(c);
    EncodeFields(Widths(OpcodeOf(c)).value, Values(c))
  }

  predicate LongBody(c: Call) {
    c.GetDeviceQueue? || c.CreateBuffer? || c.BindBufferMemory?
    || c.CmdCopyBuffer? || c.CmdDraw? || c.CreateDecodeSession?
  }

  /** Requests of three and four fields. */
  method WriteLongCall(c: Call, out: seq<byte>) returns (r: seq<byte>)
    requires LongBody(c)
    ensures r == out + EncodeCall(c)
  {
    hide LittleEndian, ToRaw, EncodeFields;
    match c
    case GetDeviceQueue(h, family, index) =>
      Body3(out, 8, 4, 4, ToRaw(h), family, index);
      r := out + LittleEndian(8, ToRaw(h)) + LittleEndian(4, family) + LittleEndian(4, index);
    case CreateBuffer(h, size, usage) =>
      Body3(out, 8, 8, 4, ToRaw(h), size, usage);
      r := out + LittleEndian(8, ToRaw(h)) + LittleEndian(8, size) + LittleEndian(4, usage);
    case BindBufferMemory(b, m, offset) =>
      Body3(out, 8, 8, 8, ToRaw(b), ToRaw(m), offset);
      r := out + LittleEndian(8, ToRaw(b)) + LittleEndian(8, ToRaw(m)) + LittleEndian(8, offset);
    case CmdCopyBuffer(cb, src, dst, size) =>
      Body4(out, 8, 8, 8, 8, ToRaw(cb), ToRaw(src), ToRaw(dst), size);
      r := out + LittleEndian(8, ToRaw(cb)) + LittleEndian(8, ToRaw(src)) + LittleEndian(8, ToRaw(dst)) + LittleEndian(8, size);
    case CmdDraw(cb, vertices, instances) =>
      Body3(out, 8, 4, 4, ToRaw(cb), vertices, instances);
      r := out + LittleEndian(8, ToRaw(cb)) + LittleEndian(4, vertices) + LittleEndian(4, instances);
    case CreateDecodeSession(codec, width, height) =>
      Body3(out, 4, 4, 4, codec, width, height);
      r := out + LittleEndian(4, codec) + LittleEndian(4, width) + LittleEndian(4, height);
  }

  /** Requests of one and two fields. */
  method WriteShortCall(c: Call, out: seq<byte>) returns (r: seq<byte>)
    requires !LongBody(c)
    ensures r == out + EncodeCall(c)
  {
    hide LittleEndian, ToRaw, EncodeFields;
    match c
    case CreateInstance(v) =>
      Body1(out, 4, v);
      r := out + LittleEndian(4, v);
    case EnumeratePhysicalDevices(h) =>
      Body1(out, 8, ToRaw(h));
      r := out + LittleEndian(8, ToRaw(h));
    case CreateDevice(h) =>
      Body1(out, 8, ToRaw(h));
      r := out + LittleEndian(8, ToRaw(h));
    case AllocateMemory(h, size) =>
      Body2(out, 8, 8, ToRaw(h), size);
      r := out + LittleEndian(8, ToRaw(h)) + LittleEndian(8, size);
    case DestroyBuffer(h) =>
      Body1(out, 8, ToRaw(h));
      r := out + LittleEndian(8, ToRaw(h));
    case FreeMemory(h) =>
      Body1(out, 8, ToRaw(h));
      r := out + LittleEndian(8, ToRaw(h));
    case CreateCommandPool(h, family) =>
      Body2(out, 8, 4, ToRaw(h), family);
      r := out + LittleEndian(8, ToRaw(h)) + LittleEndian(4, family);
    case AllocateCommandBuffer(h) =>
      Body1(out, 8, ToRaw(h));
      r := out + LittleEndian(8, ToRaw(h));
    case QueueSubmit(q, cb) =>
      Body2(out, 8, 8, ToRaw(q), ToRaw(cb));
      r := out + LittleEndian(8, ToRaw(q)) + LittleEndian(8, ToRaw(cb));
    case DestroyCommandPool(h) =>
      Body1(out, 8, ToRaw(h));
      r := out + LittleEndian(8, ToRaw(h));
    case DecodeVideoFrame(h, len) =>
      Body2(out, 8, 4, ToRaw(h), len);
      r := out + LittleEndian(8, ToRaw(h)) + LittleEndian(4, len);
    case DestroySession(h) =>
      Body1(out, 8, ToRaw(h));
      r := out + LittleEndian(8, ToRaw(h));
  }

  /** Appends a request body field by field, in the order each body lists them. */
  method WriteCall(c: Call, out: seq<byte>) returns (r: seq<byte>)
    ensures r == out + EncodeCall(c)
  {
    if LongBody(c) {
      r := WriteLongCall(c, out);
    } else {
      r := WriteShortCall(c, out);
    }
  }

  function DecodeCall(opcode: u32, body: seq<byte>): Result<Call, ProtocolError> {
    match Widths(opcode)
    case None => Err(UnknownOpcode(opcode))
    case Some(ws) =>
      match DecodeFields(ws, body)
      case None => Err(UnexpectedEof)
      case Some(vs) =>
        FieldsReencode(ws, body);
        Ok(Build(opcode, vs))
  }

  /** Every request body decodes to the call it encodes, under its opcode, with any trailing bytes. */
  lemma {:induction false} CallRoundTrip(c: Call, rest: seq<byte>)
    ensures DecodeCall(OpcodeOf(c), EncodeCall(c) + rest) == Ok(c)
  {
    ValuesFit(c);
    FieldsRoundTrip(Widths(OpcodeOf(c)).value, Values(c), rest);
    BuildValues(c);
  }

  /** A body decodes exactly when its opcode is implemented and no field is cut short. */
  lemma {:induction false} CallAccepts(opcode: u32, body: seq<byte>)
    ensures Widths(opcode).None? ==> DecodeCall(opcode, body) == Err(UnknownOpcode(opcode))
    ensures Widths(opcode).Some? && |body| < TotalWidth(Widths(opcode).value) ==>
              DecodeCall(opcode, body) == Err(UnexpectedEof)
    ensures DecodeCall(opcode, body).Ok? <==>
            Widths(opcode).Some? && |body| >= TotalWidth(Widths(opcode).value)
  {
    if Widths(opcode).Some? {
      DecodesIffLongEnough(Widths(opcode).value, body);
    }
  }

  lemma BuildInverse(opcode: u32, vs: seq<nat>)
    requires Widths(opcode).Some? && Fits(Widths(opcode).value, vs)
    ensures OpcodeOf(Build(opcode, vs)) == opcode
    ensures Values(Build(opcode, vs)) == vs
  {
    hide ToRaw, FromRaw;
    forall i | 0 <= i < |vs| && Widths(opcode).value[i] == 8 ensures ToRaw(HandleFrom(vs[i])) == vs[i] {
      RawBijection(Handle(0, 0, 0), U64(vs[i]));
    }
  }

  /** A decoded call re-encodes to exactly the bytes consumed, so decoding loses nothing. */
  lemma {:induction false} CallReencode(opcode: u32, body: seq<byte>)
    requires DecodeCall(opcode, body).Ok?
    ensures OpcodeOf(DecodeCall(opcode, body).value) == opcode
    ensures EncodeCall(DecodeCall(opcode, body).value) <= body
  {
    var ws := Widths(opcode).value;
    FieldsReencode(ws, body);
    BuildInverse(opcode, DecodeFields(ws, body).value);
  }

  method ReadCall(opcode: u32, body: seq<byte>) returns (r: Result<Call, ProtocolError>)
    ensures r == DecodeCall(opcode, body)
  {
    var ws := Widths(opcode);
    if ws.None? {
      return Err(UnknownOpcode(opcode));
    }
    var reader := new Reader(body);
    assert body[0..] == body;
    var vs := reader.ReadFields(ws.value);
    if vs.None? {
      return Err(UnexpectedEof);
    }
    FieldsReencode(ws.value, body);
    r := Ok(Build(opcode, vs.value));
  }

  // Reply bodies

  function EncodeHandle(h: Handle): (bs: seq<byte>)
    ensures |bs| == 8
  {
    LittleEndian(8, ToRaw(h))
  }

  function DecodeHandle(body: seq<byte>): Result<Handle, ProtocolError> {
    if |body| < 8 then Err(UnexpectedEof)
    else
      LittleEndianReencode(body[..8]);
      Ok(HandleFrom(FromLittleEndian(body[..8])))
  }

  function DecodeWord(body: seq<byte>): Result<u32, ProtocolError> {
    if |body| < 4 then Err(UnexpectedEof)
    else
      LittleEndianReencode(body[..4]);
      Ok(U32(FromLittleEndian(body[..4])))
  }

  lemma {:induction false} HandleBodyRoundTrip(h: Handle, rest: seq<byte>)
    ensures DecodeHandle(EncodeHandle(h) + rest) == Ok(h)
  {
    RawBack(h);
    LittleEndianRoundTrip(8, ToRaw(h));
    assert (EncodeHandle(h) + rest)[..8] == EncodeHandle(h);
  }

  lemma {:induction false} WordBodyRoundTrip(w: u32, rest: seq<byte>)
    ensures DecodeWord(LittleEndian(4, w) + rest) == Ok(w)
  {
    WordSizes();
    LittleEndianRoundTrip(4, w);
    assert (LittleEndian(4, w) + rest)[..4] == LittleEndian(4, w);
  }

  function EncodeHandles(hs: seq<Handle>): (bs: seq<byte>)
    ensures |bs| == 8 * |hs|
  {
    if hs == [] then [] else EncodeHandle(hs[0]) + EncodeHandles(hs[1..])
  }

  /** A 32-bit count followed by that many raw handles; the count of a longer list is truncated. */
  function EncodeDevices(hs: seq<Handle>): seq<byte> {
    LittleEndian(4, |hs|) + EncodeHandles(hs)
  }

  function DecodeHandles(count: nat, buf: seq<byte>): (r: Result<seq<Handle>, ProtocolError>)
    ensures r.Ok? ==> |r.value| == count
    decreases count
  {
    if count == 0 then Ok([])
    else
      match DecodeHandle(buf)
      case Err(e) => Err(e)
      case Ok(h) =>
        match DecodeHandles(count - 1, buf[8..])
        case Err(e) => Err(e)
        case Ok(hs) => Ok([h] + hs)
  }

  function DecodeDevices(body: seq<byte>): Result<seq<Handle>, ProtocolError> {
    match DecodeWord(body)
    case Err(e) => Err(e)
    case Ok(count) => DecodeHandles(count, body[4..])
  }

  /** The encoder's loop: the count, then one raw handle per turn. */
  method WriteDevices(hs: seq<Handle>, out: seq<byte>) returns (r: seq<byte>)
    ensures r == out + EncodeDevices(hs)
  {
    hide LittleEndian, EncodeHandle;
    r := out + LittleEndian(4, Truncate32(|hs|));
    LowBytesOnly(|hs|);
    var i := 0;
    assert hs[0..] == hs;
    while i < |hs|
      invariant i <= |hs|
      invariant r + EncodeHandles(hs[i..]) == out + EncodeDevices(hs)
    {
      assert hs[i..][1..] == hs[i + 1..];
      assert r + (EncodeHandle(hs[i]) + EncodeHandles(hs[i + 1..])) == r + EncodeHandle(hs[i]) + EncodeHandles(hs[i + 1..]);
      r := r + EncodeHandle(hs[i]);
      i := i + 1;
    }
    assert hs[i..] == [] && r + [] == r;
  }

  /** The `u32` cast of a length and its low four bytes are the same thing. */
  lemma LowBytesOnly(n: nat)
    ensures LittleEndian(4, Truncate32(n)) == LittleEndian(4, n)
  {
    WordSizes();
    SameLowBytes(4, Truncate32(n), n / 0x1_0000_0000);
  }

  lemma {:induction false} SameLowBytes(w: nat, v: nat, q: nat)
    ensures LittleEndian(w, v + q * Pow256(w)) == LittleEndian(w, v)
  {
    hide Pow256;
    if w > 0 {
      ShiftedLowByte(w, v, q);
      SameLowBytes(w - 1, v / 256, q);
    }
  }

  lemma ShiftedLowByte(w: nat, v: nat, q: nat)
    requires w > 0
    ensures var shifted := v + q * Pow256(w);
            shifted % 256 == v % 256 && shifted / 256 == v / 256 + q * Pow256(w - 1)
  {
    var p := q * Pow256(w - 1);
    assert q * Pow256(w) == 256 * p;
  }

  lemma {:induction false} HandlesAccept(count: nat, buf: seq<byte>)
    ensures DecodeHandles(count, buf).Ok? <==> |buf| >= 8 * count
    ensures DecodeHandles(count, buf).Err? ==> DecodeHandles(count, buf) == Err(UnexpectedEof)
    decreases count
  {
    if count > 0 && |buf| >= 8 {
      HandlesAccept(count - 1, buf[8..]);
    }
  }

  lemma HandleReencode(buf: seq<byte>)
    requires |buf| >= 8
    ensures EncodeHandle(DecodeHandle(buf).value) == buf[..8]
  {
    hide ToRaw, FromRaw;
    LittleEndianReencode(buf[..8]);
    RawBijection(Handle(0, 0, 0), U64(FromLittleEndian(buf[..8])));
  }

  lemma {:induction false} HandlesReencode(count: nat, buf: seq<byte>)
    requires |buf| >= 8 * count
    ensures DecodeHandles(count, buf).Ok? && EncodeHandles(DecodeHandles(count, buf).value) == buf[..8 * count]
    decreases count
  {
    hide FromRaw, ToRaw, FromLittleEndian, LittleEndian;
    if count > 0 {
      HandlesReencode(count - 1, buf[8..]);
      HandleReencode(buf);
      assert buf[..8] + buf[8..][..8 * (count - 1)] == buf[..8 * count];
    }
  }

  /**
   The counted device list decodes exactly when the count and that many handles are there, and
   re-encodes to the bytes consumed.
   */
  lemma {:induction false} DevicesExact(body: seq<byte>)
    ensures DecodeDevices(body).Ok? <==>
            |body| >= 4 && |body| >= 4 + 8 * DecodeWord(body).value
    ensures DecodeDevices(body).Ok? ==>
              var count: nat := DecodeWord(body).value;
              |body| >= 4 + 8 * count && EncodeDevices(DecodeDevices(body).value) == body[..4 + 8 * count]
  {
    hide DecodeHandles, EncodeHandles;
    if |body| >= 4 {
      var count: nat := DecodeWord(body).value;
      HandlesAccept(count, body[4..]);
      if |body| >= 4 + 8 * count {
        HandlesReencode(count, body[4..]);
        LittleEndianReencode(body[..4]);
        assert body[..4] + body[4..][..8 * count] == body[..4 + 8 * count];
      }
    }
  }

  lemma HandleAt(buf: seq<byte>, h: Handle)
    requires |buf| >= 8 && buf[..8] == EncodeHandle(h)
    ensures DecodeHandle(buf) == Ok(h)
  {
    RawBack(h);
    LittleEndianRoundTrip(8, ToRaw(h));
  }

  lemma {:induction false} HandlesRoundTrip(hs: seq<Handle>, rest: seq<byte>)
    ensures DecodeHandles(|hs|, EncodeHandles(hs) + rest) == Ok(hs)
  {
    if hs != [] {
      hide DecodeHandle, EncodeHandle;
      var head, tail := EncodeHandle(hs[0]), EncodeHandles(hs[1..]);
      TakeHead(head, tail, rest);
      HandleAt(head + tail + rest, hs[0]);
      HandlesRoundTrip(hs[1..], rest);
      assert [hs[0]] + hs[1..] == hs;
    }
  }

  /** A list comes back exactly when its length fits the 32-bit count. */
  lemma {:induction false} DevicesRoundTrip(hs: seq<Handle>, rest: seq<byte>)
    ensures DecodeDevices(EncodeDevices(hs) + rest) == Ok(hs) <==> |hs| <= U32_MAX
  {
    var buf := EncodeDevices(hs) + rest;
    assert buf == LittleEndian(4, |hs|) + (EncodeHandles(hs) + rest);
    assert buf[4..] == EncodeHandles(hs) + rest;
    if |hs| <= U32_MAX {
      WordBodyRoundTrip(|hs|, EncodeHandles(hs) + rest);
      HandlesRoundTrip(hs, rest);
    }
  }

  lemma DecodeOneMore(count: nat, buf: seq<byte>)
    requires count > 0 && |buf| >= 8
    ensures Pow256(8) > FromLittleEndian(buf[..8])
    ensures var r := DecodeHandles(count - 1, buf[8..]);
            DecodeHandles(count, buf) ==
            if r.Err? then Err(UnexpectedEof) else Ok([HandleFrom(FromLittleEndian(buf[..8]))] + r.value)
  {
    LittleEndianReencode(buf[..8]);
    HandlesAccept(count - 1, buf[8..]);
  }

  /** The decoder's loop: read the count, then push one handle per turn. */
  method ReadDevices(body: seq<byte>) returns (r: Result<seq<Handle>, ProtocolError>)
    ensures r == DecodeDevices(body)
  {
    hide DecodeHandles, FromLittleEndian, FromRaw, LittleEndian;
    WordSizes();
    var reader := new Reader(body);
    var count := reader.Read(4);
    if count.None? {
      return Err(UnexpectedEof);
    }
    LittleEndianReencode(body[..4]);
    ghost var all := DecodeHandles(count.value, body[4..]);
    HandlesAccept(count.value, body[4..]);
    var devices: seq<Handle> := [];
    var i := 0;
    while i < count.value
      invariant i == |devices| <= count.value
      invariant reader.pos == 4 + 8 * i <= |body|
      invariant all.Ok? <==> DecodeHandles(count.value - i, body[reader.pos..]).Ok?
      invariant all.Ok? ==> all.value == devices + DecodeHandles(count.value - i, body[reader.pos..]).value
    {
      ghost var from := reader.pos;
      HandlesAccept(count.value - i, body[from..]);
      var v := reader.Read(8);
      if v.None? {
        return Err(UnexpectedEof);
      }
      DecodeOneMore(count.value - i, body[from..]);
      assert body[from..][..8] == body[from..reader.pos];
      assert body[from..][8..] == body[reader.pos..];
      devices := devices + [HandleFrom(v.value)];
      i := i + 1;
    }
    HandlesAccept(0, body[reader.pos..]);
    assert devices + DecodeHandles(0, body[reader.pos..]).value == devices;
    r := Ok(devices);
  }
}
