/** Frame headers, the handshake bodies, opcodes and protocol errors. */
module Protocol {
  import opened Prelude
  import opened Wire

  const PROTOCOL_MAJOR: u16 := 0
  const PROTOCOL_MINOR: u16 := 0
  const DEFAULT_MAX_FRAME_BODY: u32 := 0x10_0000
  const HEADER_LEN := 28

  const HELLO: u32 := 0x00_000001
  const WELCOME: u32 := 0x00_000002
  const NOOP: u32 := 0x00_000003

  const API_VULKAN: u8 := 0x01
  const API_VIDEO: u8 := 0x07

  datatype ProtocolError =
    | UnexpectedEof
    | UnknownOpcode(opcode: u32)
    | BadKind(kind: u16)
    | BadVersion(major: u16, minor: u16)
    | FrameTooLarge(declared: u32)
    | BodyLenMismatch(declared: u32, actual: nat)

  /** An opcode: the API namespace in the high byte, the low 24 bits of the call id below it. */
  function MakeOpcode(api: u8, call: u32): u32 {
    api * 0x100_0000 + call % 0x100_0000
  }

  function OpcodeApi(opcode: u32): u8 {
    opcode / 0x100_0000
  }

  function OpcodeCall(opcode: u32): u32 {
    opcode % 0x100_0000
  }

  /** Opcodes and pairs of an API and a 24-bit call id are the same thing; wider call ids are cut. */
  lemma {:induction false} OpcodeParts(api: u8, call: u32, opcode: u32)
    ensures OpcodeApi(MakeOpcode(api, call)) == api
    ensures OpcodeCall(MakeOpcode(api, call)) == call % 0x100_0000
    ensures MakeOpcode(OpcodeApi(opcode), OpcodeCall(opcode)) == opcode
  {
  }

  datatype FrameKind = Request | Response | Event {
    function ToU16(): u16 {
      match this case Request => 0 case Response => 1 case Event => 2
    }
  }

  function KindFromU16(v: u16): Result<FrameKind, ProtocolError> {
    if v == 0 then Ok(Request)
    else if v == 1 then Ok(Response)
    else if v == 2 then Ok(Event)
    else Err(BadKind(v))
  }

  datatype FrameHeader = FrameHeader(
    version: u16,
    flags: u16,
    kind: FrameKind,
    opcode: u32,
    reqId: u32,
    seqNo: u64,
    bodyLen: u32
  )

  datatype Frame = Frame(header: FrameHeader, body: seq<byte>)

  /** version, flags, kind, reserved, opcode, req_id, seq, body_len */
  const HEADER_WIDTHS: seq<nat> := [2, 2, 2, 2, 4, 4, 8, 4]

  function HeaderValues(h: FrameHeader, reserved: u16): seq<nat> {
    [h.version, h.flags, h.kind.ToU16(), reserved, h.opcode, h.reqId, h.seqNo, h.bodyLen]
  }

  lemma HeaderFits(h: FrameHeader, reserved: u16)
    ensures Fits(HEADER_WIDTHS, HeaderValues(h, reserved))
  {
    WordSizes();
  }

  function EncodeHeader(h: FrameHeader): (bs: seq<byte>)
    ensures |bs| == HEADER_LEN
  {
    HeaderWidth();
    EncodeFields(HEADER_WIDTHS, HeaderValues(h, 0))
  }

  lemma HeaderWidth()
    ensures TotalWidth(HEADER_WIDTHS) == HEADER_LEN
    ensures TotalWidth(HEADER_WIDTHS[..2]) == 4
    ensures TotalWidth(HEADER_WIDTHS[..3]) == 6
  {
    ShortWidths(2, 2, 2, 2);
    ShortWidths(4, 4, 8, 4);
    TotalWidthConcat([2, 2, 2, 2], [4, 4, 8, 4]);
    assert HEADER_WIDTHS == [2, 2, 2, 2] + [4, 4, 8, 4];
    assert HEADER_WIDTHS[..2] == [2, 2] && HEADER_WIDTHS[..3] == [2, 2, 2];
  }

  function EncodeFrame(h: FrameHeader, body: seq<byte>): seq<byte> {
    EncodeHeader(h) + body
  }

  /** Decoded field values as a header, once the kind is known. */
  function HeaderOf(vs: seq<nat>, kind: FrameKind): FrameHeader
    requires Fits(HEADER_WIDTHS, vs)
  {
    WordSizes();
    assert HEADER_WIDTHS[0] == 2 && HEADER_WIDTHS[1] == 2 && HEADER_WIDTHS[4] == 4 && HEADER_WIDTHS[5] == 4
        && HEADER_WIDTHS[6] == 8 && HEADER_WIDTHS[7] == 4;
    FrameHeader(vs[0], vs[1], kind, vs[4], vs[5], vs[6], vs[7])
  }

  /** The kind is judged as soon as it is read, so a bad kind wins over a header cut short after it. */
  function DecodeHeader(buf: seq<byte>): Result<FrameHeader, ProtocolError> {
    if |buf| < 6 then Err(UnexpectedEof)
    else
      match KindFromU16(KindField(buf))
      case Err(e) => Err(e)
      case Ok(kind) =>
        match DecodeFields(HEADER_WIDTHS, buf)
        case None => Err(UnexpectedEof)
        case Some(vs) =>
          FieldsReencode(HEADER_WIDTHS, buf);
          Ok(HeaderOf(vs, kind))
  }

  function KindField(buf: seq<byte>): u16
    requires |buf| >= 6
  {
    WordSizes();
    LittleEndianReencode(buf[4..6]);
    FromLittleEndian(buf[4..6])
  }

  function DecodeFrame(buf: seq<byte>): Result<Frame, ProtocolError> {
    if |buf| < HEADER_LEN then Err(UnexpectedEof)
    else
      match DecodeHeader(buf)
      case Err(e) => Err(e)
      case Ok(h) => Ok(Frame(h, buf[HEADER_LEN..]))
  }

  lemma ThirdFieldIsKind(buf: seq<byte>)
    requires DecodeFields(HEADER_WIDTHS, buf).Some?
    ensures |buf| >= HEADER_LEN && DecodeFields(HEADER_WIDTHS, buf).value[2] == KindField(buf)
  {
    HeaderWidth();
    DecodesIffLongEnough(HEADER_WIDTHS, buf);
    FieldAt(HEADER_WIDTHS, buf, 2);
  }

  lemma ValuesOfHeader(h: FrameHeader, reserved: u16)
    ensures var vs := HeaderValues(h, reserved);
            && Fits(HEADER_WIDTHS, vs)
            && vs[2] == h.kind.ToU16()
            && HeaderOf(vs, h.kind) == h
            && KindFromU16(h.kind.ToU16()) == Ok(h.kind)
  {
    HeaderFits(h, reserved);
  }

  lemma HeaderFromValues(buf: seq<byte>, h: FrameHeader, reserved: u16)
    requires DecodeFields(HEADER_WIDTHS, buf) == Some(HeaderValues(h, reserved))
    ensures |buf| >= HEADER_LEN && DecodeHeader(buf) == Ok(h)
  {
    hide HeaderOf, HeaderValues, DecodeFields, KindFromU16;
    ValuesOfHeader(h, reserved);
    ThirdFieldIsKind(buf);
  }

  /** Every header and body comes back from its frame, body bytes untouched. */
  lemma {:induction false} FrameRoundTrip(h: FrameHeader, body: seq<byte>)
    ensures DecodeFrame(EncodeFrame(h, body)) == Ok(Frame(h, body))
  {
    hide DecodeHeader, DecodeFields;
    var buf := EncodeFrame(h, body);
    HeaderFits(h, 0);
    FieldsRoundTrip(HEADER_WIDTHS, HeaderValues(h, 0), body);
    HeaderFromValues(buf, h, 0);
    assert buf[HEADER_LEN..] == body;
  }

  /** A frame decodes exactly when 28 bytes are there and the kind is 0, 1 or 2. */
  lemma {:induction false} DecodeFrameAccepts(buf: seq<byte>)
    ensures DecodeFrame(buf).Ok? <==> |buf| >= HEADER_LEN && KindField(buf) <= 2
    ensures |buf| < HEADER_LEN ==> DecodeFrame(buf) == Err(UnexpectedEof)
    ensures |buf| >= HEADER_LEN && KindField(buf) > 2 ==> DecodeFrame(buf) == Err(BadKind(KindField(buf)))
  {
    HeaderWidth();
    DecodesIffLongEnough(HEADER_WIDTHS, buf);
  }

  /** A header is refused for a bad kind as soon as its kind is there, and for its length only after that. */
  lemma {:induction false} DecodeHeaderAccepts(buf: seq<byte>)
    ensures DecodeHeader(buf).Ok? <==> |buf| >= HEADER_LEN && KindField(buf) <= 2
    ensures |buf| >= 6 && KindField(buf) > 2 ==> DecodeHeader(buf) == Err(BadKind(KindField(buf)))
    ensures |buf| < 6 || (|buf| < HEADER_LEN && KindField(buf) <= 2) ==> DecodeHeader(buf) == Err(UnexpectedEof)
  {
    HeaderWidth();
    DecodesIffLongEnough(HEADER_WIDTHS, buf);
  }

  lemma ZeroWord()
    ensures LittleEndian(2, 0) == [0, 0]
  {
    assert LittleEndian(1, 0) == [0];
  }

  lemma HeaderOfValues(vs: seq<nat>, kind: FrameKind)
    requires Fits(HEADER_WIDTHS, vs) && vs[2] == kind.ToU16()
    ensures HeaderValues(HeaderOf(vs, kind), 0) == vs[3 := 0]
  {
  }

  lemma DecodedValues(buf: seq<byte>)
    requires DecodeFrame(buf).Ok?
    ensures var r := DecodeFields(HEADER_WIDTHS, buf);
            && r.Some? && |buf| >= HEADER_LEN
            && |r.value| == |HEADER_WIDTHS|
            && HeaderValues(DecodeFrame(buf).value.header, 0) == r.value[3 := 0]
            && EncodeFields(HEADER_WIDTHS, r.value) == buf[..HEADER_LEN]
  {
    DecodeFrameAccepts(buf);
    HeaderWidth();
    DecodesIffLongEnough(HEADER_WIDTHS, buf);
    FieldsReencode(HEADER_WIDTHS, buf);
    ThirdFieldIsKind(buf);
    HeaderOfValues(DecodeFields(HEADER_WIDTHS, buf).value, KindFromU16(KindField(buf)).value);
  }

  lemma Reassemble(buf: seq<byte>)
    requires |buf| >= HEADER_LEN
    ensures var full := buf[..HEADER_LEN];
            (full[..6] + [0, 0] + full[8..]) + buf[HEADER_LEN..] == buf[..6] + [0, 0] + buf[8..]
  {
    assert buf[..HEADER_LEN][8..] + buf[HEADER_LEN..] == buf[8..];
  }

  /** Re-encoding a decoded frame restores every byte but the two reserved ones, which become zero. */
  lemma {:induction false} FrameReencode(buf: seq<byte>)
    requires DecodeFrame(buf).Ok?
    ensures |buf| >= HEADER_LEN
    ensures var f := DecodeFrame(buf).value;
            EncodeFrame(f.header, f.body) == buf[..6] + [0, 0] + buf[8..]
  {
    DecodedValues(buf);
    HeaderWidth();
    ReplaceField(HEADER_WIDTHS, DecodeFields(HEADER_WIDTHS, buf).value, 3, 0);
    ZeroWord();
    Reassemble(buf);
  }

  /** Appends the header's fields one after the other; the two reserved bytes are zero. */
  method WriteHeader(h: FrameHeader, out: seq<byte>) returns (r: seq<byte>)
    ensures r == out + EncodeHeader(h)
  {
    hide LittleEndian, EncodeFields;
    ghost var ws, vs := HEADER_WIDTHS, HeaderValues(h, 0);
    SplitFields(ws, vs, 4);
    assert ws[..4] == [2, 2, 2, 2] && ws[4..] == [4, 4, 8, 4];
    assert vs[..4] == [h.version, h.flags, h.kind.ToU16(), 0] && vs[4..] == [h.opcode, h.reqId, h.seqNo, h.bodyLen];
    r := out + LittleEndian(2, h.version) + LittleEndian(2, h.flags) + LittleEndian(2, h.kind.ToU16()) + LittleEndian(2, 0);
    Body4(out, 2, 2, 2, 2, h.version, h.flags, h.kind.ToU16(), 0);
    ghost var half := r;
    r := r + LittleEndian(4, h.opcode) + LittleEndian(4, h.reqId) + LittleEndian(8, h.seqNo) + LittleEndian(4, h.bodyLen);
    Body4(half, 4, 4, 8, 4, h.opcode, h.reqId, h.seqNo, h.bodyLen);
    assert out + (EncodeFields(ws[..4], vs[..4]) + EncodeFields(ws[4..], vs[4..])) == half + EncodeFields(ws[4..], vs[4..]);
  }

  method WriteFrame(h: FrameHeader, body: seq<byte>) returns (frame: seq<byte>)
    ensures frame == EncodeFrame(h, body)
  {
    frame := WriteHeader(h, []);
    frame := frame + body;
  }

  // Handshake bodies

  datatype Hello = Hello(major: u16, minor: u16, features: u32, maxFrameBody: u32)

  datatype Welcome = Welcome(major: u16, minor: u16, features: u32, maxFrameBody: u32, sessionId: u64)

  const HELLO_WIDTHS: seq<nat> := [2, 2, 4, 4]
  const WELCOME_WIDTHS: seq<nat> := [2, 2, 4, 4, 8]

  function HelloValues(h: Hello): seq<nat> {
    [h.major, h.minor, h.features, h.maxFrameBody]
  }

  function WelcomeValues(w: Welcome): seq<nat> {
    [w.major, w.minor, w.features, w.maxFrameBody, w.sessionId]
  }

  function EncodeHello(h: Hello): seq<byte> {
    EncodeFields(HELLO_WIDTHS, HelloValues(h))
  }

  function DecodeHello(body: seq<byte>): Result<Hello, ProtocolError> {
    match DecodeFields(HELLO_WIDTHS, body)
    case None => Err(UnexpectedEof)
    case Some(vs) =>
      FieldsReencode(HELLO_WIDTHS, body);
      WordSizes();
      assert HELLO_WIDTHS[0] == 2 && HELLO_WIDTHS[1] == 2 && HELLO_WIDTHS[2] == 4 && HELLO_WIDTHS[3] == 4;
      Ok(Hello(vs[0], vs[1], vs[2], vs[3]))
  }

  function EncodeWelcome(w: Welcome): seq<byte> {
    EncodeFields(WELCOME_WIDTHS, WelcomeValues(w))
  }

  function DecodeWelcome(body: seq<byte>): Result<Welcome, ProtocolError> {
    match DecodeFields(WELCOME_WIDTHS, body)
    case None => Err(UnexpectedEof)
    case Some(vs) =>
      FieldsReencode(WELCOME_WIDTHS, body);
      WordSizes();
      assert WELCOME_WIDTHS[0] == 2 && WELCOME_WIDTHS[1] == 2 && WELCOME_WIDTHS[2] == 4 && WELCOME_WIDTHS[3] == 4
          && WELCOME_WIDTHS[4] == 8;
      Ok(Welcome(vs[0], vs[1], vs[2], vs[3], vs[4]))
  }

  /** Handshake bodies round-trip with any trailing bytes and decode exactly from 12 and 20 bytes on. */
  lemma {:induction false} HandshakeRoundTrip(h: Hello, w: Welcome, rest: seq<byte>)
    ensures DecodeHello(EncodeHello(h) + rest) == Ok(h)
    ensures DecodeWelcome(EncodeWelcome(w) + rest) == Ok(w)
    ensures DecodeHello(rest).Ok? <==> |rest| >= 12
    ensures DecodeWelcome(rest).Ok? <==> |rest| >= 20
  {
    WordSizes();
    FieldsRoundTrip(HELLO_WIDTHS, HelloValues(h), rest);
    FieldsRoundTrip(WELCOME_WIDTHS, WelcomeValues(w), rest);
    HandshakeWidths();
    DecodesIffLongEnough(HELLO_WIDTHS, rest);
    DecodesIffLongEnough(WELCOME_WIDTHS, rest);
  }

  /** Decoding a handshake body loses nothing of the bytes it consumes. */
  lemma {:induction false} HandshakeReencode(body: seq<byte>)
    ensures |body| >= 12 ==> DecodeHello(body).Ok? && EncodeHello(DecodeHello(body).value) == body[..12]
    ensures |body| >= 20 ==> DecodeWelcome(body).Ok? && EncodeWelcome(DecodeWelcome(body).value) == body[..20]
    ensures |body| < 12 ==> DecodeHello(body) == Err(UnexpectedEof)
    ensures |body| < 20 ==> DecodeWelcome(body) == Err(UnexpectedEof)
  {
    HandshakeWidths();
    DecodesIffLongEnough(HELLO_WIDTHS, body);
    DecodesIffLongEnough(WELCOME_WIDTHS, body);
    if |body| >= 12 {
      FieldsReencode(HELLO_WIDTHS, body);
      var vs := DecodeFields(HELLO_WIDTHS, body).value;
      assert HelloValues(DecodeHello(body).value) == vs;
    }
    if |body| >= 20 {
      FieldsReencode(WELCOME_WIDTHS, body);
      var vs := DecodeFields(WELCOME_WIDTHS, body).value;
      assert WelcomeValues(DecodeWelcome(body).value) == vs;
    }
  }

  lemma HandshakeWidths()
    ensures TotalWidth(HELLO_WIDTHS) == 12 && TotalWidth(WELCOME_WIDTHS) == 20
  {
    ShortWidths(2, 2, 4, 4);
    ShortWidths(8, 0, 0, 0);
    TotalWidthConcat(HELLO_WIDTHS, [8]);
    assert WELCOME_WIDTHS == HELLO_WIDTHS + [8];
  }

  // Decoders as the code runs them

  /** Reads the header field by field, rejecting an unknown kind before looking any further. */
  method ReadHeader(buf: seq<byte>) returns (r: Result<FrameHeader, ProtocolError>)
    ensures r == DecodeHeader(buf)
  {
    HeaderWidth();
    DecodesIffLongEnough(HEADER_WIDTHS, buf);
    DecodesIffLongEnough(HEADER_WIDTHS[..3], buf);
    var reader := new Reader(buf);
    assert buf[0..] == buf;
    var first := reader.ReadFields(HEADER_WIDTHS[..3]);
    if first.None? {
      return Err(UnexpectedEof);
    }
    SplitRead(HEADER_WIDTHS, buf, 3);
    FieldAt(HEADER_WIDTHS[..3], buf, 2);
    assert HEADER_WIDTHS[..3][..2] == HEADER_WIDTHS[..2];
    assert first.value[2] == KindField(buf);
    var kind := KindFromU16(first.value[2]);
    if kind.Err? {
      return Err(kind.error);
    }
    var rest := reader.ReadFields(HEADER_WIDTHS[3..]);
    if rest.None? {
      return Err(UnexpectedEof);
    }
    FieldsReencode(HEADER_WIDTHS, buf);
    r := Ok(HeaderOf(first.value + rest.value, kind.value));
  }

  method ReadFrame(buf: seq<byte>) returns (r: Result<Frame, ProtocolError>)
    ensures r == DecodeFrame(buf)
  {
    if |buf| < HEADER_LEN {
      return Err(UnexpectedEof);
    }
    var h := ReadHeader(buf);
    if h.Err? {
      return Err(h.error);
    }
    r := Ok(Frame(h.value, buf[HEADER_LEN..]));
  }
}
