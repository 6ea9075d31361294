/** Length-prefixed frames over a byte stream that arrives in arbitrary pieces. */
module Framing {
  import opened Basics

  type Byte = b: int | 0 <= b < 256 witness 0
  type Bytes = seq<Byte>

  const TWO_31: int := 0x8000_0000
  const TWO_32: int := 0x1_0000_0000
  const TWO_64: int := 0x1_0000_0000_0000_0000

  /** A 32-bit pattern read as a signed number. */
  function Int32(u: int): int {
    if u < TWO_31 then u else u - TWO_32
  }

  function BigEndian(u: int): (b: Bytes)
    requires 0 <= u < TWO_32
    ensures |b| == 4
  {
    [u / 0x100_0000, u / 0x1_0000 % 0x100, u / 0x100 % 0x100, u % 0x100]
  }

  function ReadBigEndian(b: Bytes): int
    requires |b| >= 4
  {
    var b0: int, b1: int, b2: int, b3: int := b[0], b[1], b[2], b[3];
    ((b0 * 0x100 + b1) * 0x100 + b2) * 0x100 + b3
  }

  /** What `FrameWriter` posts: the size as a 32-bit number, then the payload. */
  function Frame(payload: Bytes): Bytes {
    BigEndian(|payload| % TWO_32) + payload
  }

  datatype Scan = Wait | Got(payload: Bytes, rest: Bytes) | Undefined

  /**
    What `FrameReader` makes of its buffer. The size is a signed 32-bit number that is added
    to 4 in unsigned 64-bit arithmetic; a size of -1 to -4 passes the test and the
    iterators cross.
  */
  function ScanBuffer(buffer: Bytes): Scan {
    if |buffer| < 4 then Wait
    else
      var n := Int32(ReadBigEndian(buffer));
      if |buffer| < (n + 4) % TWO_64 then Wait
      else if n < 0 then Undefined
      else Got(buffer[4..4 + n], buffer[4 + n..])
  }

  /** The reader as an object: `posted` is the sequence of frames handed to the next client. */
  class FrameReader {
    var buffer: Bytes
    var posted: seq<Bytes>

    constructor ()
      ensures buffer == [] && posted == []
    {
      buffer, posted := [], [];
    }

    function State(): Reader
      reads this
    {
      Reader(buffer, posted)
    }

    /** At most one frame is posted per call. The result is false where the source has no defined behaviour. */
    method OnData(chunk: Bytes) returns (defined: bool)
      modifies this
      ensures defined <==> !ScanBuffer(old(buffer) + chunk).Undefined?
      ensures State() == old(State()).OnData(chunk)
    {
      var data := chunk;
      if |buffer| == 0 {
        buffer, data := data, buffer;
        assert buffer == old(buffer) + chunk;
      } else {
        buffer := buffer + data;
      }
      if |buffer| < 4 {
        return true;
      }
      var frameBytes := Int32(ReadBigEndian(buffer));
      if |buffer| < (frameBytes + 4) % TWO_64 {
        return true;
      }
      if frameBytes < 0 {
        return false;
      }
      var begin := 4;
      var end := begin + frameBytes;
      data := buffer[begin..end];
      if end == |buffer| {
        buffer := [];
      } else {
        buffer := buffer[end..];
      }
      posted := posted + [data];
      return true;
    }
  }

  /** The writer's construction of one frame. */
  method WriteFrame(payload: Bytes) returns (frame: Bytes)
    ensures frame == Frame(payload)
  {
    var frameBytes := |payload| % TWO_32;
    frame := [];
    var head := BigEndian(frameBytes);
    for i := 0 to 4
      invariant frame == head[..i]
    {
      frame := frame + [head[i]];
    }
    frame := frame + payload;
  }

  datatype Reader = Reader(buffer: Bytes, posted: seq<Bytes>) {
    function OnData(chunk: Bytes): Reader {
      match ScanBuffer(buffer + chunk)
      case Got(payload, rest) => Reader(rest, posted + [payload])
      case _ => Reader(buffer + chunk, posted)
    }

    function OnAll(chunks: seq<Bytes>): Reader {
      if chunks == [] then this
      else OnAll(chunks[..|chunks| - 1]).OnData(chunks[|chunks| - 1])
    }
  }

  function Encode(payloads: seq<Bytes>): Bytes {
    if payloads == [] then [] else Frame(payloads[0]) + Encode(payloads[1..])
  }

  function Joined(chunks: seq<Bytes>): Bytes {
    if chunks == [] then [] else Joined(chunks[..|chunks| - 1]) + chunks[|chunks| - 1]
  }

  ghost predicate Sendable(payloads: seq<Bytes>) {
    forall i :: 0 <= i < |payloads| ==> |payloads[i]| < TWO_31
  }

  /** How many frames of the stream lie inside its first n bytes. */
  function Complete(payloads: seq<Bytes>, n: int): nat {
    if payloads == [] || n < 4 + |payloads[0]| then 0
    else 1 + Complete(payloads[1..], n - 4 - |payloads[0]|)
  }

  function Min(a: int, b: int): int {
    if a < b then a else b
  }

  // ---------------------------------------------------------------- one frame

  lemma BigEndianReads(u: int)
    requires 0 <= u < TWO_32
    ensures ReadBigEndian(BigEndian(u)) == u
  {
    assert u / 0x100 == u / 0x1_0000 * 0x100 + u / 0x100 % 0x100;
    assert u / 0x1_0000 == u / 0x100_0000 * 0x100 + u / 0x1_0000 % 0x100;
  }

  lemma ScanKnown(buffer: Bytes, n: nat)
    requires |buffer| >= 4 && ReadBigEndian(buffer) == n < TWO_31
    ensures ScanBuffer(buffer) == if |buffer| < 4 + n then Wait else Got(buffer[4..4 + n], buffer[4 + n..])
  {
  }

  lemma HeadReads(part: Bytes, whole: Bytes)
    requires |part| >= 4 && part <= whole
    ensures ReadBigEndian(part) == ReadBigEndian(whole)
  {
  }

  lemma SmallMod(n: int)
    requires 0 <= n < TWO_32
    ensures n % TWO_32 == n
  {
  }

  lemma FrameIs(payload: Bytes)
    requires |payload| < TWO_32
    ensures Frame(payload) == BigEndian(|payload|) + payload
  {
    SmallMod(|payload|);
  }

  lemma HeadOf(whole: Bytes, head: Bytes, payload: Bytes, rest: Bytes)
    requires |head| == 4 && whole == head + payload
    ensures ReadBigEndian(whole + rest) == ReadBigEndian(head)
  {
  }

  lemma FrameHead(payload: Bytes, rest: Bytes)
    requires |payload| < TWO_31
    ensures ReadBigEndian(Frame(payload) + rest) == |payload|
  {
    FrameIs(payload);
    BigEndianReads(|payload|);
    HeadOf(Frame(payload), BigEndian(|payload|), payload, rest);
  }

  lemma FrameBody(payload: Bytes, rest: Bytes)
    ensures var b := Frame(payload) + rest;
            |b| >= 4 + |payload| && b[4..4 + |payload|] == payload && b[4 + |payload|..] == rest
  {
    assert |Frame(payload)| == 4 + |payload| && Frame(payload)[4..] == payload;
  }

  /** A frame followed by anything yields its payload, if the payload is shorter than 2^31 bytes. */
  lemma ScanFrame(payload: Bytes, rest: Bytes)
    requires |payload| < TWO_31
    ensures ScanBuffer(Frame(payload) + rest) == Got(payload, rest)
  {
    FrameHead(payload, rest);
    FrameBody(payload, rest);
    ScanKnown(Frame(payload) + rest, |payload|);
  }

  /** A proper prefix of such a frame makes the reader wait. */
  lemma ScanPart(payload: Bytes, part: Bytes)
    requires |payload| < TWO_31 && part < Frame(payload)
    ensures ScanBuffer(part) == Wait
  {
    if |part| >= 4 {
      HeadReads(part, Frame(payload));
      FrameHead(payload, []);
      assert Frame(payload) + [] == Frame(payload);
      ScanKnown(part, |payload|);
    }
  }

  /** A frame is read back exactly when its payload is shorter than 2^31 bytes. */
  lemma FrameReadBackIff(payload: Bytes)
    ensures ScanBuffer(Frame(payload)) == Got(payload, []) <==> |payload| < TWO_31
  {
    assert Frame(payload) + [] == Frame(payload);
    if |payload| < TWO_31 {
      ScanFrame(payload, []);
    } else {
      BigEndianReads(|payload| % TWO_32);
      HeadOf(Frame(payload), BigEndian(|payload| % TWO_32), payload, []);
    }
  }

  // ---------------------------------------------------------------- a stream of frames

  lemma {:induction false} EncodeSplit(payloads: seq<Bytes>, k: nat)
    requires k <= |payloads|
    ensures Encode(payloads) == Encode(payloads[..k]) + Encode(payloads[k..])
  {
    if k == 0 {
      assert payloads[..0] == [] && payloads[0..] == payloads;
    } else {
      EncodeSplit(payloads[1..], k - 1);
      assert payloads[..k][1..] == payloads[1..][..k - 1] && payloads[1..][k - 1..] == payloads[k..];
      Associate(Frame(payloads[0]), Encode(payloads[1..][..k - 1]), Encode(payloads[k..]));
    }
  }

  lemma EncodeAppend(payloads: seq<Bytes>, p: Bytes)
    ensures Encode(payloads + [p]) == Encode(payloads) + Frame(p)
  {
    EncodeSplit(payloads + [p], |payloads|);
    assert (payloads + [p])[..|payloads|] == payloads && (payloads + [p])[|payloads|..] == [p];
    assert Encode([p]) == Frame(p) + Encode([]);
  }

  /** The buffer holds a prefix of the frames still to come: scan it. */
  lemma ScanStream(payloads: seq<Bytes>, buffer: Bytes)
    requires Sendable(payloads) && buffer <= Encode(payloads)
    ensures ScanBuffer(buffer) ==
            if payloads != [] && |buffer| >= 4 + |payloads[0]| then Got(payloads[0], buffer[4 + |payloads[0]|..]) else Wait
    ensures payloads != [] && |buffer| >= 4 + |payloads[0]| ==>
              buffer == Frame(payloads[0]) + buffer[4 + |payloads[0]|..] && buffer[4 + |payloads[0]|..] <= Encode(payloads[1..])
  {
    if payloads != [] {
      var frame, stream := Frame(payloads[0]), Encode(payloads);
      if |buffer| >= |frame| {
        assert buffer == stream[..|buffer|];
        assert buffer[..|frame|] == frame;
        assert buffer == frame + buffer[|frame|..];
        ScanFrame(payloads[0], buffer[|frame|..]);
        assert Encode(payloads[1..]) == stream[|frame|..];
        assert buffer[|frame|..] == stream[|frame|..|buffer|];
      } else {
        assert buffer == stream[..|buffer|] == frame[..|buffer|];
        ScanPart(payloads[0], buffer);
      }
    }
  }

  lemma {:induction false} CompleteAfter(payloads: seq<Bytes>, k: nat, n: int)
    requires k <= |payloads| && n >= |Encode(payloads[..k])|
    ensures Complete(payloads, n) == k + Complete(payloads[k..], n - |Encode(payloads[..k])|)
  {
    if k == 0 {
      assert payloads[..0] == [] && payloads[0..] == payloads;
    } else {
      assert payloads[..k][1..] == payloads[1..][..k - 1] && payloads[1..][k - 1..] == payloads[k..];
      CompleteAfter(payloads[1..], k - 1, n - 4 - |payloads[0]|);
    }
  }

  lemma {:induction false} CompleteMonotone(payloads: seq<Bytes>, m: int, n: int)
    requires m <= n
    ensures Complete(payloads, m) <= Complete(payloads, n)
  {
    if payloads != [] && m >= 4 + |payloads[0]| {
      CompleteMonotone(payloads[1..], m - 4 - |payloads[0]|, n - 4 - |payloads[0]|);
    }
  }

  /** What holds of the reader after every chunk. */
  ghost predicate InStep(r: Reader, payloads: seq<Bytes>, received: Bytes) {
    |r.posted| <= |payloads| && r.posted == payloads[..|r.posted|] && Encode(r.posted) + r.buffer == received &&
    received <= Encode(payloads)
  }

  /**
    One chunk keeps the reader in step with the stream, and posts the next frame exactly when
    one more frame is complete.
  */
  lemma ReaderStep(r: Reader, payloads: seq<Bytes>, received: Bytes, chunk: Bytes)
    requires Sendable(payloads) && InStep(r, payloads, received) && received + chunk <= Encode(payloads)
    ensures InStep(r.OnData(chunk), payloads, received + chunk)
    ensures !ScanBuffer(r.buffer + chunk).Undefined?
    ensures |r.OnData(chunk).posted| == Min(|r.posted| + 1, Complete(payloads, |received + chunk|))
  {
    var k, buffer := |r.posted|, r.buffer + chunk;
    Associate(Encode(r.posted), r.buffer, chunk);
    Remaining(payloads, k, buffer);
    ScanStream(payloads[k..], buffer);
    NextFrame(r, payloads, buffer);
  }

  /** The reader with the stream's next frame moved from the buffer to the posted frames, if it is there. */
  function Moved(r: Reader, payloads: seq<Bytes>, buffer: Bytes): Reader {
    var k := |r.posted|;
    if k < |payloads| && |buffer| >= 4 + |payloads[k]| then Reader(buffer[4 + |payloads[k]|..], r.posted + [payloads[k]])
    else Reader(buffer, r.posted)
  }

  lemma NextFrame(r: Reader, payloads: seq<Bytes>, buffer: Bytes)
    requires |r.posted| <= |payloads| && r.posted == payloads[..|r.posted|]
    requires Encode(r.posted) + buffer <= Encode(payloads)
    requires |r.posted| < |payloads| && |buffer| >= 4 + |payloads[|r.posted|]| ==>
               buffer == Frame(payloads[|r.posted|]) + buffer[4 + |payloads[|r.posted|]|..]
    ensures InStep(Moved(r, payloads, buffer), payloads, Encode(r.posted) + buffer)
    ensures |Moved(r, payloads, buffer).posted| == Min(|r.posted| + 1, Complete(payloads, |Encode(r.posted) + buffer|))
  {
    var k := |r.posted|;
    CompleteAfter(payloads, k, |Encode(r.posted) + buffer|);
    if k < |payloads| && |buffer| >= 4 + |payloads[k]| {
      EncodeAppend(r.posted, payloads[k]);
      Associate(Encode(r.posted), Frame(payloads[k]), buffer[4 + |payloads[k]|..]);
      assert payloads[..k + 1] == r.posted + [payloads[k]];
    }
  }

  /** Once the first k frames are posted, the buffer is a prefix of the encoding of the others. */
  lemma Remaining(payloads: seq<Bytes>, k: nat, buffer: Bytes)
    requires k <= |payloads| && Encode(payloads[..k]) + buffer <= Encode(payloads)
    ensures buffer <= Encode(payloads[k..])
  {
    EncodeSplit(payloads, k);
    PrefixAfter(Encode(payloads[..k]), buffer, Encode(payloads[k..]));
  }

  lemma PrefixAfter(a: Bytes, b: Bytes, c: Bytes)
    requires a + b <= a + c
    ensures b <= c
  {
    assert b == (a + b)[|a|..] && c == (a + c)[|a|..];
    assert (a + b) == (a + c)[..|a + b|];
  }

  /**
    For every way the stream of frames is cut into chunks, after any number of them: the
    re-encoded posted frames followed by the buffer are the bytes received, the posted frames
    are a prefix of the payloads, and the count grows by at most one per chunk.
  */
  lemma {:induction false} ReaderTracksStream(payloads: seq<Bytes>, chunks: seq<Bytes>)
    requires Sendable(payloads) && Joined(chunks) <= Encode(payloads)
    ensures InStep(Reader([], []).OnAll(chunks), payloads, Joined(chunks))
    ensures chunks != [] ==>
              |Reader([], []).OnAll(chunks).posted| ==
              Min(|Reader([], []).OnAll(chunks[..|chunks| - 1]).posted| + 1, Complete(payloads, |Joined(chunks)|))
  {
    if chunks != [] {
      var init, last := chunks[..|chunks| - 1], chunks[|chunks| - 1];
      assert Joined(init) <= Encode(payloads);
      ReaderTracksStream(payloads, init);
      ReaderStep(Reader([], []).OnAll(init), payloads, Joined(init), last);
    }
  }

  /** Number of frames complete after the first i chunks. */
  function CompleteAt(payloads: seq<Bytes>, chunks: seq<Bytes>, i: nat): nat
    requires i <= |chunks|
  {
    Complete(payloads, |Joined(chunks[..i])|)
  }

  /** If no chunk completes more than one frame, all complete frames are posted at the end. */
  lemma {:induction false} PostedWhenSpread(payloads: seq<Bytes>, chunks: seq<Bytes>)
    requires Sendable(payloads) && Joined(chunks) <= Encode(payloads)
    requires forall i :: 0 <= i < |chunks| ==> CompleteAt(payloads, chunks, i + 1) <= CompleteAt(payloads, chunks, i) + 1
    ensures |Reader([], []).OnAll(chunks).posted| == Complete(payloads, |Joined(chunks)|)
  {
    if chunks != [] {
      var n := |chunks| - 1;
      var init := chunks[..n];
      ReaderTracksStream(payloads, chunks);
      assert Joined(init) <= Encode(payloads);
      forall i | 0 <= i < n ensures CompleteAt(payloads, init, i + 1) <= CompleteAt(payloads, init, i) + 1 {
        assert init[..i] == chunks[..i] && init[..i + 1] == chunks[..i + 1];
        assert CompleteAt(payloads, chunks, i + 1) <= CompleteAt(payloads, chunks, i) + 1;
      }
      PostedWhenSpread(payloads, init);
      assert chunks[..n + 1] == chunks;
      assert CompleteAt(payloads, chunks, n + 1) <= CompleteAt(payloads, chunks, n) + 1;
      CompleteMonotone(payloads, |Joined(init)|, |Joined(chunks)|);
    }
  }

  /** No chunk completes more than one frame. */
  predicate Spread(payloads: seq<Bytes>, chunks: seq<Bytes>) {
    forall i :: 0 <= i < |chunks| ==> CompleteAt(payloads, chunks, i + 1) <= CompleteAt(payloads, chunks, i) + 1
  }

  /** After k chunks every complete frame is posted. */
  predicate Prompt(payloads: seq<Bytes>, chunks: seq<Bytes>, k: nat)
    requires k <= |chunks|
  {
    |Reader([], []).OnAll(chunks[..k]).posted| == CompleteAt(payloads, chunks, k)
  }

  /** Every frame is posted as soon as it is complete exactly when no chunk completes more than one frame. */
  lemma PostedPromptly(payloads: seq<Bytes>, chunks: seq<Bytes>)
    requires Sendable(payloads) && Joined(chunks) <= Encode(payloads)
    ensures Spread(payloads, chunks) <==> forall k :: 0 <= k <= |chunks| ==> Prompt(payloads, chunks, k)
  {
    forall k | 0 <= k <= |chunks| ensures Joined(chunks[..k]) <= Encode(payloads) {
      JoinedPrefix(chunks, k);
    }
    if Spread(payloads, chunks) {
      forall k | 0 <= k <= |chunks| ensures Prompt(payloads, chunks, k) {
        assert forall i :: 0 <= i <= k ==> chunks[..k][..i] == chunks[..i];
        assert forall i :: 0 <= i <= k ==> CompleteAt(payloads, chunks[..k], i) == CompleteAt(payloads, chunks, i);
        PostedWhenSpread(payloads, chunks[..k]);
      }
    }
    if forall k :: 0 <= k <= |chunks| ==> Prompt(payloads, chunks, k) {
      forall i | 0 <= i < |chunks| ensures CompleteAt(payloads, chunks, i + 1) <= CompleteAt(payloads, chunks, i) + 1 {
        assert Prompt(payloads, chunks, i) && Prompt(payloads, chunks, i + 1);
        assert chunks[..i + 1][..i] == chunks[..i];
        ReaderTracksStream(payloads, chunks[..i + 1]);
      }
    }
  }

  lemma {:induction false} JoinedPrefix(chunks: seq<Bytes>, k: nat)
    requires k <= |chunks|
    ensures Joined(chunks[..k]) <= Joined(chunks)
  {
    if k < |chunks| {
      var most := chunks[..|chunks| - 1];
      assert most[..k] == chunks[..k];
      JoinedPrefix(most, k);
    } else {
      assert chunks[..k] == chunks;
    }
  }

  /** Two frames in one chunk: the second stays in the buffer, complete, until more bytes come. */
  lemma SecondFrameWaits(p: Bytes, q: Bytes)
    requires |p| < TWO_31
    ensures Reader([], []).OnData(Frame(p) + Frame(q)) == Reader(Frame(q), [p])
  {
    assert [] + (Frame(p) + Frame(q)) == Frame(p) + Frame(q);
    ScanFrame(p, Frame(q));
  }
}
