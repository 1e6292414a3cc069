/** The bytes on the wire, field by field at their offsets, as the protocol lays them out. */
module Layouts {
  import opened Prelude
  import opened Handles
  import opened Wire
  import opened Protocol
  import opened Bodies
  import opened Backends

  function Word2(v: u16): seq<byte> {
    [v % 0x100, v / 0x100]
  }

  function Word3(v: u24): seq<byte> {
    [v % 0x100, v / 0x100 % 0x100, v / 0x1_0000]
  }

  function Word4(v: u32): seq<byte> {
    [v % 0x100, v / 0x100 % 0x100, v / 0x1_0000 % 0x100, v / 0x100_0000]
  }

  function Word8(v: u64): seq<byte> {
    Word4(v % 0x1_0000_0000) + Word4(v / 0x1_0000_0000)
  }

  /** A raw handle: slot, generation, kind, from the first byte to the last. */
  function HandleBytes(h: Handle): seq<byte> {
    Word4(h.slot) + Word3(h.generation) + [h.kind]
  }

  /** A double word is its low word and then its high one. */
  lemma {:induction false} DoubleWord(d: nat)
    ensures LittleEndian(8, d) == LittleEndian(4, d) + LittleEndian(4, d / 0x1_0000_0000)
  {
    var a, b, c := d / 256, d / 256 / 256, d / 256 / 256 / 256;
    var e := c / 256;
    assert e == d / 0x1_0000_0000;
    assert LittleEndian(5, c) == [c % 256] + LittleEndian(4, e);
    assert LittleEndian(6, b) == [b % 256] + LittleEndian(5, c);
    assert LittleEndian(7, a) == [a % 256] + LittleEndian(6, b);
    assert LittleEndian(1, c) == [c % 256];
    assert LittleEndian(2, b) == [b % 256] + LittleEndian(1, c);
    assert LittleEndian(3, a) == [a % 256] + LittleEndian(2, b);
  }

  lemma {:induction false} Words(a: u16, b: u24, c: u32, d: u64)
    ensures LittleEndian(2, a) == Word2(a)
    ensures LittleEndian(3, b) == Word3(b)
    ensures LittleEndian(4, c) == Word4(c)
    ensures LittleEndian(8, d) == Word8(d)
  {
    assert LittleEndian(0, 0) == [];
    assert LittleEndian(2, a) == [a % 256] + ([a / 256 % 256] + LittleEndian(0, a / 256 / 256));
    Three(b);
    Four(c);
    DoubleWord(d);
    Four(d / 0x1_0000_0000);
    Four(d % 0x1_0000_0000);
    LowWord(d);
  }

  lemma Three(v: u24)
    ensures LittleEndian(3, v) == Word3(v)
  {
    assert LittleEndian(1, v / 256 / 256) == [v / 256 / 256 % 256];
    assert LittleEndian(2, v / 256) == [v / 256 % 256] + LittleEndian(1, v / 256 / 256);
  }

  lemma Four(v: u32)
    ensures LittleEndian(4, v) == Word4(v)
  {
    assert LittleEndian(1, v / 256 / 256 / 256) == [v / 256 / 256 / 256 % 256];
    assert LittleEndian(2, v / 256 / 256) == [v / 256 / 256 % 256] + LittleEndian(1, v / 256 / 256 / 256);
    assert LittleEndian(3, v / 256) == [v / 256 % 256] + LittleEndian(2, v / 256 / 256);
  }

  lemma LowWord(d: u64)
    ensures LittleEndian(4, d) == LittleEndian(4, d % 0x1_0000_0000)
  {
    LowBytesOnly(d);
  }

  lemma Fields1(a: nat, w: nat)
    ensures EncodeFields([a], [w]) == LittleEndian(a, w)
  {
    OneField(a, w);
  }

  lemma Fields2(a: nat, b: nat, w: nat, x: nat)
    ensures EncodeFields([a, b], [w, x]) == LittleEndian(a, w) + LittleEndian(b, x)
  {
    hide LittleEndian, EncodeFields;
    Body2([], a, b, w, x);
    Unprefixed(EncodeFields([a, b], [w, x]));
    Unprefixed(LittleEndian(a, w));
  }

  lemma Fields3(a: nat, b: nat, c: nat, w: nat, x: nat, y: nat)
    ensures EncodeFields([a, b, c], [w, x, y]) == LittleEndian(a, w) + LittleEndian(b, x) + LittleEndian(c, y)
  {
    hide LittleEndian, EncodeFields;
    Body3([], a, b, c, w, x, y);
    Unprefixed(EncodeFields([a, b, c], [w, x, y]));
    Unprefixed(LittleEndian(a, w));
  }

  lemma Fields4(a: nat, b: nat, c: nat, d: nat, w: nat, x: nat, y: nat, z: nat)
    ensures EncodeFields([a, b, c, d], [w, x, y, z]) ==
            LittleEndian(a, w) + LittleEndian(b, x) + LittleEndian(c, y) + LittleEndian(d, z)
  {
    hide LittleEndian, EncodeFields;
    Body4([], a, b, c, d, w, x, y, z);
    Unprefixed(EncodeFields([a, b, c, d], [w, x, y, z]));
    Unprefixed(LittleEndian(a, w));
  }

  lemma Unprefixed(bs: seq<byte>)
    ensures [] + bs == bs
  {
  }

  /** A handle goes out as its slot, generation and kind, least significant byte first. */
  lemma {:induction false} HandleLayout(h: Handle)
    ensures EncodeHandle(h) == HandleBytes(h)
  {
    hide LittleEndian, Word4, Word3;
    Words(0, 0, 0, ToRaw(h));
    HighWord(h);
    assert Word4(h.slot) + (Word3(h.generation) + [h.kind]) == HandleBytes(h);
  }

  lemma HighWord(h: Handle)
    ensures ToRaw(h) % 0x1_0000_0000 == h.slot
    ensures Word4(ToRaw(h) / 0x1_0000_0000) == Word3(h.generation) + [h.kind]
  {
    var high := h.kind * 0x100_0000 + h.generation;
    assert ToRaw(h) == high * 0x1_0000_0000 + h.slot;
    assert ToRaw(h) / 0x1_0000_0000 == high;
    KindOnTop(h.kind, h.generation);
  }

  lemma KindOnTop(kind: u8, generation: u24)
    ensures Word4(kind * 0x100_0000 + generation) == Word3(generation) + [kind]
  {
    var low := generation / 0x100;
    LowByte(kind * 0x1_0000 + low, generation % 0x100);
    LowByte(kind * 0x100 + low / 0x100, low % 0x100);
    LowByte(kind, low / 0x100);
  }

  /** Taking the low byte off a number. */
  lemma LowByte(high: nat, low: u8)
    ensures (high * 0x100 + low) % 0x100 == low && (high * 0x100 + low) / 0x100 == high
    ensures (high * 0x100 + low) / 0x1_0000 == high / 0x100 && (high * 0x100 + low) / 0x100_0000 == high / 0x1_0000
  {
  }

  /** The 28 header bytes. */
  function HeaderBytes(h: FrameHeader): seq<byte> {
    var kind := match h.kind case Request => 0 case Response => 1 case Event => 2;
    Word2(h.version) + Word2(h.flags) + Word2(kind) + [0, 0]
    + Word4(h.opcode) + Word4(h.reqId) + Word8(h.seqNo) + Word4(h.bodyLen)
  }

  /** A frame is its header bytes and then its body. */
  lemma {:induction false} FrameLayout(h: FrameHeader, body: seq<byte>)
    ensures EncodeFrame(h, body) == HeaderBytes(h) + body
  {
    hide LittleEndian, Word2, Word4, Word8, EncodeFields;
    var ws, vs := HEADER_WIDTHS, HeaderValues(h, 0);
    SplitFields(ws, vs, 4);
    assert ws[..4] == [2, 2, 2, 2] && ws[4..] == [4, 4, 8, 4];
    assert vs[..4] == [h.version, h.flags, h.kind.ToU16(), 0] && vs[4..] == [h.opcode, h.reqId, h.seqNo, h.bodyLen];
    Fields4(2, 2, 2, 2, h.version, h.flags, h.kind.ToU16(), 0);
    Fields4(4, 4, 8, 4, h.opcode, h.reqId, h.seqNo, h.bodyLen);
    Words(h.version, 0, h.opcode, h.seqNo);
    Words(h.flags, 0, h.reqId, 0);
    Words(h.kind.ToU16(), 0, h.bodyLen, 0);
    ZeroWord();
    Regroup(Word2(h.version) + Word2(h.flags) + Word2(h.kind.ToU16()) + [0, 0],
            Word4(h.opcode), Word4(h.reqId), Word8(h.seqNo), Word4(h.bodyLen));
  }

  lemma Regroup(half: seq<byte>, a: seq<byte>, b: seq<byte>, c: seq<byte>, d: seq<byte>)
    ensures half + (a + b + c + d) == half + a + b + c + d
  {
  }

  /** The handshake bodies. */
  lemma {:induction false} HandshakeLayout(h: Hello, w: Welcome)
    ensures EncodeHello(h) == Word2(h.major) + Word2(h.minor) + Word4(h.features) + Word4(h.maxFrameBody)
    ensures EncodeWelcome(w) ==
            Word2(w.major) + Word2(w.minor) + Word4(w.features) + Word4(w.maxFrameBody) + Word8(w.sessionId)
  {
    hide LittleEndian, Word2, Word4, Word8, EncodeFields;
    Fields4(2, 2, 4, 4, h.major, h.minor, h.features, h.maxFrameBody);
    Words(h.major, 0, h.features, 0);
    Words(h.minor, 0, h.maxFrameBody, 0);
    Fields4(2, 2, 4, 4, w.major, w.minor, w.features, w.maxFrameBody);
    Words(w.major, 0, w.features, w.sessionId);
    Words(w.minor, 0, w.maxFrameBody, 0);
    var ws, vs := WELCOME_WIDTHS, WelcomeValues(w);
    SplitFields(ws, vs, 4);
    assert ws[..4] == [2, 2, 4, 4] && ws[4..] == [8];
    assert vs[..4] == [w.major, w.minor, w.features, w.maxFrameBody] && vs[4..] == [w.sessionId];
    Fields1(8, w.sessionId);
  }

  /** The fields of each request body, in wire order. */
  function CallBytes(c: Call): seq<byte> {
    match c
    case CreateInstance(appApiVersion) => Word4(appApiVersion)
    case EnumeratePhysicalDevices(instance) => HandleBytes(instance)
    case CreateDevice(physicalDevice) => HandleBytes(physicalDevice)
    case GetDeviceQueue(device, family, index) => HandleBytes(device) + Word4(family) + Word4(index)
    case AllocateMemory(device, size) => HandleBytes(device) + Word8(size)
    case CreateBuffer(device, size, usage) => HandleBytes(device) + Word8(size) + Word4(usage)
    case BindBufferMemory(buffer, memory, offset) => HandleBytes(buffer) + HandleBytes(memory) + Word8(offset)
    case DestroyBuffer(buffer) => HandleBytes(buffer)
    case FreeMemory(memory) => HandleBytes(memory)
    case CreateCommandPool(device, family) => HandleBytes(device) + Word4(family)
    case AllocateCommandBuffer(pool) => HandleBytes(pool)
    case QueueSubmit(queue, commandBuffer) => HandleBytes(queue) + HandleBytes(commandBuffer)
    case CmdCopyBuffer(commandBuffer, src, dst, size) =>
      HandleBytes(commandBuffer) + HandleBytes(src) + HandleBytes(dst) + Word8(size)
    case CmdDraw(commandBuffer, vertexCount, instanceCount) =>
      HandleBytes(commandBuffer) + Word4(vertexCount) + Word4(instanceCount)
    case DestroyCommandPool(pool) => HandleBytes(pool)
    case CreateDecodeSession(codec, width, height) => Word4(codec) + Word4(width) + Word4(height)
    case DecodeVideoFrame(session, bitstreamLen) => HandleBytes(session) + Word4(bitstreamLen)
    case DestroySession(session) => HandleBytes(session)
  }

  lemma CopyLayout(c: Call)
    requires c.CmdCopyBuffer?
    ensures EncodeCall(c) == CallBytes(c)
  {
    hide LittleEndian, ToRaw, EncodeFields, HandleBytes, Word8;
    Fields4(8, 8, 8, 8, ToRaw(c.commandBuffer), ToRaw(c.src), ToRaw(c.dst), c.size);
    HandleLayout(c.commandBuffer);
    HandleLayout(c.src);
    HandleLayout(c.dst);
    Words(0, 0, 0, c.size);
  }

  lemma BindLayout(c: Call)
    requires c.BindBufferMemory?
    ensures EncodeCall(c) == CallBytes(c)
  {
    hide LittleEndian, ToRaw, EncodeFields, HandleBytes, Word8;
    Fields3(8, 8, 8, ToRaw(c.buffer), ToRaw(c.memory), c.offset);
    HandleLayout(c.buffer);
    HandleLayout(c.memory);
    Words(0, 0, 0, c.offset);
  }

  /** Requests of three and four fields. */
  lemma LongCallLayout(c: Call)
    requires LongBody(c)
    ensures EncodeCall(c) == CallBytes(c)
  {
    hide LittleEndian, ToRaw, EncodeFields, HandleBytes, Word4, Word8;
    match c
    case GetDeviceQueue(h, family, index) =>
      Fields3(8, 4, 4, ToRaw(h), family, index);
      HandleLayout(h);
      Words(0, 0, family, 0);
      Words(0, 0, index, 0);
    case CreateBuffer(h, size, usage) =>
      Fields3(8, 8, 4, ToRaw(h), size, usage);
      HandleLayout(h);
      Words(0, 0, usage, size);
    case BindBufferMemory(_, _, _) => BindLayout(c);
    case CmdCopyBuffer(_, _, _, _) => CopyLayout(c);
    case CmdDraw(cb, vertices, instances) =>
      Fields3(8, 4, 4, ToRaw(cb), vertices, instances);
      HandleLayout(cb);
      Words(0, 0, vertices, 0);
      Words(0, 0, instances, 0);
    case CreateDecodeSession(codec, width, height) =>
      Fields3(4, 4, 4, codec, width, height);
      Words(0, 0, codec, 0);
      Words(0, 0, width, 0);
      Words(0, 0, height, 0);
  }

  /** Requests of one and two fields. */
  lemma ShortCallLayout(c: Call)
    requires !LongBody(c)
    ensures EncodeCall(c) == CallBytes(c)
  {
    hide LittleEndian, ToRaw, EncodeFields, HandleBytes, Word4, Word8;
    forall h: Handle ensures LittleEndian(8, ToRaw(h)) == HandleBytes(h) { HandleLayout(h); }
    forall v: u32 ensures LittleEndian(4, v) == Word4(v) { Words(0, 0, v, 0); }
    forall v: u64 ensures LittleEndian(8, v) == Word8(v) { Words(0, 0, 0, v); }
    forall w, v ensures EncodeFields([w], [v]) == LittleEndian(w, v) { Fields1(w, v); }
    match c
    case AllocateMemory(h, size) => Fields2(8, 8, ToRaw(h), size);
    case CreateCommandPool(h, family) => Fields2(8, 4, ToRaw(h), family);
    case QueueSubmit(q, cb) => Fields2(8, 8, ToRaw(q), ToRaw(cb));
    case DecodeVideoFrame(h, len) => Fields2(8, 4, ToRaw(h), len);
    case _ =>
  }

  /** Every request body is its fields in wire order. */
  lemma {:induction false} CallLayout(c: Call)
    ensures EncodeCall(c) == CallBytes(c)
  {
    hide EncodeCall, CallBytes;
    if LongBody(c) {
      LongCallLayout(c);
    } else {
      ShortCallLayout(c);
    }
  }

  /** Handle `i` of a device list sits at its own offset behind the count. */
  lemma {:induction false} DevicesLayout(hs: seq<Handle>, i: nat)
    requires i < |hs| <= U32_MAX
    ensures |EncodeDevices(hs)| == 4 + 8 * |hs|
    ensures EncodeDevices(hs)[..4] == Word4(|hs|)
    ensures EncodeDevices(hs)[4 + 8 * i..12 + 8 * i] == HandleBytes(hs[i])
  {
    hide EncodeHandle, Word4, HandleBytes, LittleEndian;
    Words(0, 0, |hs|, 0);
    HandleAt(hs, i);
    HandleLayout(hs[i]);
  }

  lemma {:induction false} HandleAt(hs: seq<Handle>, i: nat)
    requires i < |hs|
    ensures EncodeHandles(hs)[8 * i..8 * i + 8] == EncodeHandle(hs[i])
  {
    hide EncodeHandle;
    if i > 0 {
      HandleAt(hs[1..], i - 1);
      assert EncodeHandles(hs)[8 * i..8 * i + 8] == EncodeHandles(hs[1..])[8 * (i - 1)..8 * (i - 1) + 8];
    }
  }

  /** What a successful call answers with: the handle made, the frame index, or nothing at all. */
  lemma {:induction false} AnswerLayout(a: Answer)
    ensures a.Created? ==> EncodeAnswer(a) == HandleBytes(a.handle)
    ensures a.FrameIndex? ==> EncodeAnswer(a) == Word4(a.index)
    ensures a.Ack? ==> EncodeAnswer(a) == []
    ensures a.Devices? && |a.handles| == 1 ==> EncodeAnswer(a) == Word4(1) + HandleBytes(a.handles[0])
  {
    hide EncodeHandle, Word4, HandleBytes, LittleEndian;
    match a
    case Created(h) => HandleLayout(h);
    case FrameIndex(i) => Words(0, 0, i, 0);
    case Devices(hs) =>
      if |hs| == 1 {
        DevicesLayout(hs, 0);
        var bs := EncodeDevices(hs);
        assert bs == bs[..4] + bs[4..12];
      }
    case Ack =>
  }
}
