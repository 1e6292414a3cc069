/** Length-prefixed framing over a byte stream. */
module Streams {
  import opened Prelude
  import opened Wire

  /** The kinds of I/O error the code tells apart. */
  datatype IoError = EndOfFile | BrokenPipe | InvalidData | InvalidInput | OtherIo(code: int)

  /** A 4-byte little-endian length, then the frame. */
  function Framed(frame: seq<byte>): seq<byte> {
    LittleEndian(4, |frame|) + frame
  }

  datatype Received = Received(result: Result<seq<byte>, IoError>, rest: seq<byte>)

  /** One receive: an over-long declared length is refused before the body is looked at. */
  function Receive(maxFrame: u32, rx: seq<byte>): Received {
    if |rx| < 4 then Received(Err(EndOfFile), [])
    else
      var len := FromLittleEndian(rx[..4]);
      if len > maxFrame then Received(Err(InvalidData), rx[4..])
      else if |rx| - 4 < len then Received(Err(EndOfFile), [])
      else Received(Ok(rx[4..4 + len]), rx[4 + len..])
  }

  function SendAll(frames: seq<seq<byte>>): seq<byte> {
    if frames == [] then [] else Framed(frames[0]) + SendAll(frames[1..])
  }

  /** Every frame received before the first error, and that error. */
  datatype Harvest = Harvest(frames: seq<seq<byte>>, error: IoError)

  function ReceiveAll(maxFrame: u32, rx: seq<byte>): Harvest
    decreases |rx|
  {
    var r := Receive(maxFrame, rx);
    match r.result
    case Err(e) => Harvest([], e)
    case Ok(frame) =>
      var rest := ReceiveAll(maxFrame, r.rest);
      Harvest([frame] + rest.frames, rest.error)
  }

  predicate WithinCap(maxFrame: u32, frames: seq<seq<byte>>) {
    forall i :: 0 <= i < |frames| ==> |frames[i]| <= maxFrame
  }

  /** What one receive makes of a framed message followed by anything. */
  lemma ReceiveFramed(maxFrame: u32, frame: seq<byte>, rest: seq<byte>)
    requires |frame| <= U32_MAX
    ensures Receive(maxFrame, Framed(frame) + rest) ==
            if |frame| <= maxFrame then Received(Ok(frame), rest) else Received(Err(InvalidData), frame + rest)
  {
    var rx := Framed(frame) + rest;
    WordSizes();
    LittleEndianRoundTrip(4, |frame|);
    assert rx[..4] == LittleEndian(4, |frame|);
    assert rx[4..] == frame + rest;
    assert rx[4..4 + |frame|] == frame;
    assert rx[4 + |frame|..] == rest;
  }

  /** A message cut short yields no frame at all, only the end of the stream. */
  lemma ReceiveCut(maxFrame: u32, frame: seq<byte>, rest: seq<byte>, k: nat)
    requires |frame| <= maxFrame && k < |Framed(frame)|
    ensures Receive(maxFrame, (Framed(frame) + rest)[..k]) == Received(Err(EndOfFile), [])
  {
    var rx := (Framed(frame) + rest)[..k];
    WordSizes();
    LittleEndianRoundTrip(4, |frame|);
    if k >= 4 {
      assert rx[..4] == LittleEndian(4, |frame|);
    }
  }

  /** How many frames come before the first one over the cap. */
  function BeforeOverlong(maxFrame: u32, frames: seq<seq<byte>>): (n: nat)
    ensures n <= |frames|
    ensures WithinCap(maxFrame, frames[..n])
    ensures n < |frames| ==> |frames[n]| > maxFrame
  {
    if frames == [] || |frames[0]| > maxFrame then 0
    else
      var n := BeforeOverlong(maxFrame, frames[1..]);
      assert forall i :: 0 < i < n + 1 ==> frames[i] == frames[1..][..n][i - 1];
      n + 1
  }

  /**
   Sending frames and receiving them gives them back in order and then the end of the stream when
   all are within the receiver's cap; otherwise exactly those before the first over-long one, which
   is refused.
   */
  lemma {:induction false} ReceivesWhatWasSent(maxFrame: u32, frames: seq<seq<byte>>)
    requires WithinCap(U32_MAX, frames)
    ensures var n := BeforeOverlong(maxFrame, frames);
            ReceiveAll(maxFrame, SendAll(frames)) ==
            Harvest(frames[..n], if n == |frames| then EndOfFile else InvalidData)
    decreases |frames|
  {
    if frames != [] {
      hide Receive, Framed;
      ReceivesWhatWasSent(maxFrame, frames[1..]);
      ReceiveFramed(maxFrame, frames[0], SendAll(frames[1..]));
      var n := BeforeOverlong(maxFrame, frames[1..]);
      assert frames[..n + 1] == [frames[0]] + frames[1..][..n];
    } else {
      assert SendAll([]) == [];
    }
  }

  /** The frames that arrive whole within the first `k` bytes. */
  function WholeFrames(frames: seq<seq<byte>>, k: nat): nat {
    if frames == [] || k < |Framed(frames[0])| then 0
    else 1 + WholeFrames(frames[1..], k - |Framed(frames[0])|)
  }

  lemma {:induction false} WholeFramesBound(frames: seq<seq<byte>>, k: nat)
    ensures WholeFrames(frames, k) <= |frames|
    ensures |SendAll(frames[..WholeFrames(frames, k)])| <= k
    ensures WholeFrames(frames, k) < |frames| ==> k < |SendAll(frames[..WholeFrames(frames, k) + 1])|
    decreases |frames|
  {
    if frames != [] {
      if k >= |Framed(frames[0])| {
        var n := WholeFrames(frames[1..], k - |Framed(frames[0])|);
        WholeFramesBound(frames[1..], k - |Framed(frames[0])|);
        assert frames[..n + 1][1..] == frames[1..][..n];
        if n < |frames| - 1 {
          assert frames[..n + 2][1..] == frames[1..][..n + 1];
        }
      } else {
        assert frames[..1][1..] == [];
      }
    }
  }

  lemma SendAllStep(frames: seq<seq<byte>>)
    ensures frames != [] ==> SendAll(frames) == Framed(frames[0]) + SendAll(frames[1..])
  {
  }

  /** Cutting the stream anywhere yields just the frames that had arrived whole, then end of stream. */
  lemma {:induction false} TruncationYieldsPrefix(maxFrame: u32, frames: seq<seq<byte>>, k: nat)
    requires WithinCap(maxFrame, frames) && k <= |SendAll(frames)|
    ensures WholeFrames(frames, k) <= |frames|
    ensures ReceiveAll(maxFrame, SendAll(frames)[..k]) == Harvest(frames[..WholeFrames(frames, k)], EndOfFile)
    decreases |frames|
  {
    WholeFramesBound(frames, k);
    SendAllStep(frames);
    if frames != [] {
      hide Receive, Framed, LittleEndian, SendAll;
      var first, rest := Framed(frames[0]), SendAll(frames[1..]);
      if k < |first| {
        ReceiveCut(maxFrame, frames[0], rest, k);
      } else {
        assert (first + rest)[..k] == first + rest[..k - |first|];
        ReceiveFramed(maxFrame, frames[0], rest[..k - |first|]);
        TruncationYieldsPrefix(maxFrame, frames[1..], k - |first|);
        var n := WholeFrames(frames[1..], k - |first|);
        assert frames[..n + 1] == [frames[0]] + frames[1..][..n];
      }
    }
  }

  lemma ReceivedIsFramed(maxFrame: u32, rx: seq<byte>)
    ensures var r := Receive(maxFrame, rx);
            r.result.Ok? ==> |r.result.value| <= maxFrame && rx == Framed(r.result.value) + r.rest
  {
    if |rx| >= 4 {
      LittleEndianReencode(rx[..4]);
      var len := FromLittleEndian(rx[..4]);
      if len <= |rx| - 4 {
        assert rx == rx[..4] + rx[4..4 + len] + rx[4 + len..];
      }
    }
  }

  lemma FramedIsLonger(frame: seq<byte>)
    ensures |Framed(frame)| == 4 + |frame|
  {
  }

  /**
   For any bytes at all, re-sending the frames received reproduces exactly the bytes they came from:
   what is left after those is where the reported error arose.
   */
  lemma {:induction false} ResendReproduces(maxFrame: u32, rx: seq<byte>)
    ensures var h := ReceiveAll(maxFrame, rx);
            && SendAll(h.frames) <= rx
            && WithinCap(maxFrame, h.frames)
            && Receive(maxFrame, rx[|SendAll(h.frames)|..]).result == Err(h.error)
    decreases |rx|
  {
    hide Framed, Receive;
    ReceivedIsFramed(maxFrame, rx);
    var r := Receive(maxFrame, rx);
    if r.result.Ok? {
      FramedIsLonger(r.result.value);
      ResendReproduces(maxFrame, r.rest);
      var more := ReceiveAll(maxFrame, r.rest).frames;
      assert ([r.result.value] + more)[1..] == more;
      var first := Framed(r.result.value);
      assert rx[|first| + |SendAll(more)|..] == r.rest[|SendAll(more)|..];
    } else {
      assert rx[0..] == rx;
    }
  }

  const MAX_FRAME: u32 := 64 * 1024 * 1024

  /** A duplex byte stream with the framing on top: `rx` is still to be read, `tx` was written. */
  class StreamTransport {
    var rx: seq<byte>
    var tx: seq<byte>
    const maxFrame: u32

    constructor (maxFrame: u32)
      ensures this.maxFrame == maxFrame && rx == tx == []
    {
      this.maxFrame := maxFrame;
      rx, tx := [], [];
    }

    method Send(frame: seq<byte>) returns (r: Result<(), IoError>)
      modifies this`tx
      ensures if |frame| <= U32_MAX then r == Ok(()) && tx == old(tx) + Framed(frame)
              else r == Err(InvalidInput) && tx == old(tx)
    {
      if |frame| > U32_MAX {
        return Err(InvalidInput);
      }
      tx := tx + LittleEndian(4, |frame|);
      tx := tx + frame;
      assert tx == old(tx) + Framed(frame);
      r := Ok(());
    }

    /** Takes exactly `n` bytes, or drains the stream and reports its end. */
    method ReadExact(n: nat) returns (r: Result<seq<byte>, IoError>)
      modifies this`rx
      ensures if n <= |old(rx)| then r == Ok(old(rx)[..n]) && rx == old(rx)[n..]
              else r == Err(EndOfFile) && rx == []
    {
      if n > |rx| {
        rx := [];
        return Err(EndOfFile);
      }
      r, rx := Ok(rx[..n]), rx[n..];
    }

    method Recv() returns (r: Result<seq<byte>, IoError>)
      modifies this`rx
      ensures Received(r, rx) == Receive(maxFrame, old(rx))
    {
      ghost var before := rx;
      var header := ReadExact(4);
      if header.Err? {
        return header;
      }
      var len := FromLittleEndian(header.value);
      if len > maxFrame {
        return Err(InvalidData);
      }
      r := ReadExact(len);
      if len <= |before| - 4 {
        assert before[4..][..len] == before[4..4 + len];
        assert before[4..][len..] == before[4 + len..];
      }
    }
  }
}
