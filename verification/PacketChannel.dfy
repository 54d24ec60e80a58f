/** Cutting frames back out of a byte stream that arrives in arbitrary pieces. */
module PacketChannel {
  import opened ProtocolTypes
  import opened ByteIo
  import opened PacketCodec
  import PacketCodecLaws

  /** What a buffer yields: the bytes kept for later, the packets handed on in order, the number of
      rejected frames or buffers, and whether an unreadable header made the channel drop everything. */
  datatype Reassembly = Reassembly(rest: ByteBuffer, packets: seq<PacketEnvelope>, failures: nat, lost: bool) {
    function Then(next: Reassembly): Reassembly {
      Reassembly(next.rest, packets + next.packets, failures + next.failures, lost || next.lost)
    }
  }

  function OneFrame(options: CodecOptions, frame: ByteBuffer): Reassembly {
    match Decode(options, frame)
    case Decoded(p) => Reassembly([], [p], 0, false)
    case DecodeFailed(_) => Reassembly([], [], 1, false)
  }

  function Reassemble(options: CodecOptions, inbound: ByteBuffer): Reassembly {
    if inbound == [] then Reassembly([], [], 0, false)
    else
      var frame := InspectFrame(options, inbound);
      if frame.status == Incomplete then Reassembly(inbound, [], 0, false)
      else if frame.status != Ok || frame.frameSize == 0 || frame.frameSize > |inbound| then
        Reassembly([], [], 1, true)
      else
        OneFrame(options, inbound[..frame.frameSize]).Then(Reassemble(options, inbound[frame.frameSize..]))
  }

  lemma Unfold(options: CodecOptions, inbound: ByteBuffer)
    ensures var frame := InspectFrame(options, inbound);
            Reassemble(options, inbound) ==
              if inbound == [] then Reassembly([], [], 0, false)
              else if frame.status == Incomplete then Reassembly(inbound, [], 0, false)
              else if frame.status != Ok || frame.frameSize == 0 || frame.frameSize > |inbound| then
                Reassembly([], [], 1, true)
              else OneFrame(options, inbound[..frame.frameSize]).Then(Reassemble(options, inbound[frame.frameSize..]))
  {
  }

  class QtPacketChannel {
    const options: CodecOptions
    const hasRouter: bool
    var inbound: ByteBuffer
    var decodedPackets: nat
    var decodeFailures: nat
    var submitted: seq<PacketEnvelope>

    constructor (options: CodecOptions, hasRouter: bool)
      ensures this.options == options && this.hasRouter == hasRouter
      ensures inbound == [] && decodedPackets == 0 && decodeFailures == 0 && submitted == []
    {
      this.options := options;
      this.hasRouter := hasRouter;
      inbound, decodedPackets, decodeFailures, submitted := [], 0, 0, [];
    }

    method OnBytes(bytes: ByteBuffer)
      modifies this
      ensures var r := Reassemble(options, old(inbound) + bytes);
              && inbound == r.rest
              && decodedPackets == old(decodedPackets) + |r.packets|
              && decodeFailures == old(decodeFailures) + r.failures
              && submitted == old(submitted) + if hasRouter then r.packets else []
    {
      hide InspectFrame, Decode, Reassemble;
      inbound := inbound + bytes;
      ghost var total := Reassemble(options, inbound);
      ghost var sofar := Reassembly([], [], 0, false);
      Unfold(options, []);
      while inbound != []
        invariant total == sofar.Then(Reassemble(options, inbound))
        invariant decodedPackets == old(decodedPackets) + |sofar.packets|
        invariant decodeFailures == old(decodeFailures) + sofar.failures
        invariant submitted == old(submitted) + if hasRouter then sofar.packets else []
        decreases |inbound|
      {
        var frame := InspectFrame(options, inbound);
        Unfold(options, inbound);
        if frame.status == Incomplete {
          return;
        }
        if frame.status != Ok || frame.frameSize == 0 || frame.frameSize > |inbound| {
          decodeFailures := decodeFailures + 1;
          inbound := [];
          return;
        }
        var packetBytes := inbound[..frame.frameSize];
        var decoded := Decode(options, packetBytes);
        ghost var one := OneFrame(options, packetBytes);
        ThenAssociates(sofar, one, Reassemble(options, inbound[frame.frameSize..]));
        sofar := sofar.Then(one);
        inbound := inbound[frame.frameSize..];
        if decoded.DecodeFailed? {
          decodeFailures := decodeFailures + 1;
        } else {
          decodedPackets := decodedPackets + 1;
          if hasRouter {
            submitted := submitted + [decoded.packet];
          }
        }
      }
    }
  }

  // ----- any cutting of the stream

  function Flatten(chunks: seq<ByteBuffer>): ByteBuffer {
    if chunks == [] then [] else chunks[0] + Flatten(chunks[1..])
  }

  /** The effect of one OnBytes call per chunk, the first of them finding `inbound` in the buffer. */
  function Feed(options: CodecOptions, inbound: ByteBuffer, chunks: seq<ByteBuffer>): Reassembly
    decreases |chunks|
  {
    if chunks == [] then Reassembly(inbound, [], 0, false)
    else
      var first := Reassemble(options, inbound + chunks[0]);
      first.Then(Feed(options, first.rest, chunks[1..]))
  }

  /** Bytes that arrive later do not change what a readable header announces. */
  lemma HeaderIsSettled(options: CodecOptions, a: ByteBuffer, b: ByteBuffer)
    requires InspectFrame(options, a).status != Incomplete
    ensures InspectFrame(options, a + b) == InspectFrame(options, a)
    ensures InspectFrame(options, a).status == Ok ==> 100 <= InspectFrame(options, a).frameSize <= |a|
  {
    assert (a + b)[..100] == a[..100];
    PacketCodecLaws.ParsedFieldsStandInTheHeader(a, a + b);
  }

  lemma ThenAssociates(a: Reassembly, b: Reassembly, c: Reassembly)
    ensures a.Then(b).Then(c) == a.Then(b.Then(c))
  {
    assert a.packets + b.packets + c.packets == a.packets + (b.packets + c.packets);
  }

  /** Where the first header the channel cannot read stands, following the lengths of the headers before it. */
  function FirstUnreadable(options: CodecOptions, s: ByteBuffer): Option<nat> {
    if |s| < 100 then None
    else if CheckHeader(options, s) != Ok then Some(0)
    else
      var size := 100 + ReadU32(s, OFFSET_PAYLOAD_LENGTH);
      if size > |s| then None
      else
        match FirstUnreadable(options, s[size..])
        case None => None
        case Some(i) => Some(size + i)
  }

  /** No unreadable header is reached, or nothing follows the first one. */
  predicate CutSafe(options: CodecOptions, s: ByteBuffer) {
    match FirstUnreadable(options, s)
    case None => true
    case Some(i) => i + 100 == |s|
  }

  /** An unreadable header ends the reassembly, whatever follows it. */
  lemma {:induction false} UnreadableEnds(options: CodecOptions, a: ByteBuffer, b: ByteBuffer)
    requires FirstUnreadable(options, a).Some?
    ensures FirstUnreadable(options, a + b) == FirstUnreadable(options, a)
    ensures Reassemble(options, a).rest == [] && Reassemble(options, a + b) == Reassemble(options, a)
    decreases |a|
  {
    hide OneFrame, ReadU32, CheckHeader;
    HeaderStands(options, a, b);
    if CheckHeader(options, a) == Ok {
      var size := 100 + ReadU32(a, OFFSET_PAYLOAD_LENGTH);
      assert (a + b)[..size] == a[..size] && (a + b)[size..] == a[size..] + b;
      UnreadableEnds(options, a[size..], b);
    }
  }

  lemma HeaderStands(options: CodecOptions, a: ByteBuffer, b: ByteBuffer)
    requires |a| >= 100
    ensures CheckHeader(options, a + b) == CheckHeader(options, a) != Incomplete
    ensures ReadU32(a + b, OFFSET_PAYLOAD_LENGTH) == ReadU32(a, OFFSET_PAYLOAD_LENGTH)
  {
    hide ReadU32;
    assert (a + b)[..100] == a[..100];
    PacketCodecLaws.ParsedFieldsStandInTheHeader(a, a + b);
  }

  lemma {:induction false} LostExactlyWhenUnreadable(options: CodecOptions, s: ByteBuffer)
    ensures Reassemble(options, s).lost <==> FirstUnreadable(options, s).Some?
    decreases |s|
  {
    hide OneFrame, ReadU32;
    if |s| >= 100 && CheckHeader(options, s) == Ok && 100 + ReadU32(s, OFFSET_PAYLOAD_LENGTH) <= |s| {
      assert !OneFrame(options, s[..100 + ReadU32(s, OFFSET_PAYLOAD_LENGTH)]).lost by {
        OneFrameLosesNothing(options, s[..100 + ReadU32(s, OFFSET_PAYLOAD_LENGTH)]);
      }
      LostExactlyWhenUnreadable(options, s[100 + ReadU32(s, OFFSET_PAYLOAD_LENGTH)..]);
    }
  }

  lemma OneFrameLosesNothing(options: CodecOptions, frame: ByteBuffer)
    ensures var r := OneFrame(options, frame); !r.lost && r.rest == [] && |r.packets| + r.failures == 1
  {
    hide Decode;
  }

  /** Reassembling a stream can be interrupted anywhere before an unreadable header: what was kept, followed
      by the remaining bytes, yields the remaining packets, and is as safe to cut as the whole. */
  lemma {:induction false} Resume(options: CodecOptions, a: ByteBuffer, b: ByteBuffer)
    requires !Reassemble(options, a).lost
    ensures var r := Reassemble(options, a);
            && Reassemble(options, a + b) == r.Then(Reassemble(options, r.rest + b))
            && (CutSafe(options, a + b) <==> CutSafe(options, r.rest + b))
    decreases |a|
  {
    hide OneFrame, ReadU32, CheckHeader;
    if a == [] {
      assert a + b == b;
    } else if InspectFrame(options, a).status != Incomplete {
      LostExactlyWhenUnreadable(options, a);
      HeaderIsSettled(options, a, b);
      HeaderStands(options, a, b);
      var size := InspectFrame(options, a).frameSize;
      var head, tail := a[..size], a[size..];
      assert (a + b)[..size] == head && (a + b)[size..] == tail + b;
      Resume(options, tail, b);
      ThenAssociates(OneFrame(options, head), Reassemble(options, tail),
                     Reassemble(options, Reassemble(options, tail).rest + b));
    }
  }

  /** A stream that is safe to cut gives the same packets in the same order, however it is cut and whatever
      part of it was already waiting. */
  lemma {:induction false} SafeCutting(options: CodecOptions, inbound: ByteBuffer, chunks: seq<ByteBuffer>)
    requires CutSafe(options, inbound + Flatten(chunks))
    requires Reassemble(options, inbound) == Reassembly(inbound, [], 0, false)
    ensures Feed(options, inbound, chunks) == Reassemble(options, inbound + Flatten(chunks))
    decreases |chunks|
  {
    if chunks == [] {
      assert inbound + Flatten(chunks) == inbound;
    } else {
      hide CutSafe, FirstUnreadable, Reassemble;
      var next, more := inbound + chunks[0], Flatten(chunks[1..]);
      var rest := Reassemble(options, next).rest;
      assert inbound + Flatten(chunks) == next + more;
      RestIsSettled(options, next);
      if more == [] {
        assert next + more == next && rest + more == rest;
        SettledIsSafe(options, rest);
      } else {
        SafeSoFar(options, next, more);
        Resume(options, next, more);
      }
      SafeCutting(options, rest, chunks[1..]);
    }
  }

  lemma SettledIsSafe(options: CodecOptions, rest: ByteBuffer)
    requires !Reassemble(options, rest).lost
    ensures CutSafe(options, rest)
  {
    LostExactlyWhenUnreadable(options, rest);
  }

  lemma SafeSoFar(options: CodecOptions, a: ByteBuffer, b: ByteBuffer)
    requires CutSafe(options, a + b) && b != []
    ensures !Reassemble(options, a).lost
  {
    hide Reassemble, FirstUnreadable;
    LostExactlyWhenUnreadable(options, a);
    if FirstUnreadable(options, a).Some? {
      UnreadableStands(options, a);
      UnreadableEnds(options, a, b);
    }
  }

  /** Any bytes at all leave a trace: something waiting, a packet or a failure. */
  lemma BytesLeaveATrace(options: CodecOptions, s: ByteBuffer)
    requires s != []
    ensures var r := Reassemble(options, s); r.rest != [] || r.packets != [] || r.failures > 0
  {
    hide OneFrame, InspectFrame;
    var frame := InspectFrame(options, s);
    if frame.status == Ok && 0 < frame.frameSize <= |s| {
      OneFrameLosesNothing(options, s[..frame.frameSize]);
    }
  }

  /** Bytes behind an unreadable header are dropped with it or looked at on their own, as the cut falls. */
  lemma UnsafeCutting(options: CodecOptions, s: ByteBuffer)
    requires !CutSafe(options, s)
    ensures FirstUnreadable(options, s).Some?
    ensures var i := FirstUnreadable(options, s).value;
            i + 100 < |s| && Flatten([s[..i + 100], s[i + 100..]]) == s
            && Feed(options, [], [s[..i + 100], s[i + 100..]]) != Reassemble(options, s)
  {
    hide Reassemble, FirstUnreadable;
    UnreadableStands(options, s);
    var i := FirstUnreadable(options, s).value;
    var head, tail := s[..i + 100], s[i + 100..];
    UnreadableEnds(options, head, tail);
    assert head + tail == s;
    BytesLeaveATrace(options, tail);
    TwoChunks(options, head, tail);
  }

  lemma TwoChunks(options: CodecOptions, head: ByteBuffer, tail: ByteBuffer)
    requires Reassemble(options, head).rest == []
    ensures Flatten([head, tail]) == head + tail
    ensures Feed(options, [], [head, tail]) == Reassemble(options, head).Then(Reassemble(options, tail))
  {
    hide Reassemble;
    var second := Reassemble(options, tail);
    assert [] + head == head && [] + tail == tail && [head, tail][1..] == [tail];
    assert Feed(options, [], [tail]) == second.Then(Feed(options, second.rest, [])) == second;
    assert Flatten([tail]) == tail + Flatten([]) == tail;
  }

  lemma {:induction false} UnreadableStands(options: CodecOptions, s: ByteBuffer)
    requires FirstUnreadable(options, s).Some?
    ensures var i := FirstUnreadable(options, s).value;
            i + 100 <= |s| && FirstUnreadable(options, s[..i + 100]) == Some(i)
    decreases |s|
  {
    hide ReadU32, CheckHeader;
    var i := FirstUnreadable(options, s).value;
    if CheckHeader(options, s) == Ok {
      var size := 100 + ReadU32(s, OFFSET_PAYLOAD_LENGTH);
      UnreadableStands(options, s[size..]);
      assert s[..i + 100][size..] == s[size..][..i - size + 100];
    }
    assert s == s[..i + 100] + s[i + 100..];
    HeaderStands(options, s[..i + 100], s[i + 100..]);
  }

  ghost predicate CutIndependent(options: CodecOptions, s: ByteBuffer) {
    forall chunks :: Flatten(chunks) == s ==> Feed(options, [], chunks) == Reassemble(options, s)
  }

  /** However a stream is cut into chunks, the same packets come out in the same order, with the same failures
      and the same bytes left waiting, exactly when no header is unreadable or nothing follows the first that is. */
  lemma ChunkingDoesNotMatter(options: CodecOptions, s: ByteBuffer)
    ensures CutIndependent(options, s) <==> CutSafe(options, s)
  {
    hide CutSafe, FirstUnreadable, Reassemble;
    if CutSafe(options, s) {
      EmptyIsSettled(options);
      forall chunks | Flatten(chunks) == s ensures Feed(options, [], chunks) == Reassemble(options, s) {
        assert [] + Flatten(chunks) == s;
        SafeCutting(options, [], chunks);
      }
    } else {
      UnsafeCutting(options, s);
      var i := FirstUnreadable(options, s).value;
      var chunks := [s[..i + 100], s[i + 100..]];
      assert Flatten(chunks) == s && Feed(options, [], chunks) != Reassemble(options, s);
    }
  }

  lemma EmptyIsSettled(options: CodecOptions)
    ensures Reassemble(options, []) == Reassembly([], [], 0, false)
  {
  }

  lemma {:induction false} RestIsSettled(options: CodecOptions, inbound: ByteBuffer)
    ensures var r := Reassemble(options, inbound); Reassemble(options, r.rest) == Reassembly(r.rest, [], 0, false)
    decreases |inbound|
  {
    hide InspectFrame, OneFrame;
    var frame := InspectFrame(options, inbound);
    if inbound != [] && frame.status == Ok && 0 < frame.frameSize <= |inbound| {
      RestIsSettled(options, inbound[frame.frameSize..]);
    }
  }

  // ----- streams of whole frames

  ghost predicate WellFramed(options: CodecOptions, frame: ByteBuffer) {
    InspectFrame(options, frame) == FrameInspection(Ok, |frame|)
  }

  /** Each frame decoded on its own, in order. */
  function EachFrame(options: CodecOptions, frames: seq<ByteBuffer>): Reassembly {
    if frames == [] then Reassembly([], [], 0, false)
    else OneFrame(options, frames[0]).Then(EachFrame(options, frames[1..]))
  }

  lemma {:induction false} WholeFrames(options: CodecOptions, frames: seq<ByteBuffer>)
    requires forall f :: f in frames ==> WellFramed(options, f)
    ensures Reassemble(options, Flatten(frames)) == EachFrame(options, frames)
    ensures !EachFrame(options, frames).lost
  {
    if frames != [] {
      var f, more := frames[0], Flatten(frames[1..]);
      assert WellFramed(options, f);
      assert |f| >= 100;
      HeaderIsSettled(options, f, more);
      assert (f + more)[..|f|] == f && (f + more)[|f|..] == more;
      WholeFrames(options, frames[1..]);
    }
  }

  /** A stream of well-framed bytes, cut anywhere, delivers each frame's packet in order; a frame that
      does not decode loses only itself, and nothing is left behind. */
  lemma DeliversFrames(options: CodecOptions, frames: seq<ByteBuffer>, chunks: seq<ByteBuffer>)
    requires forall f :: f in frames ==> WellFramed(options, f)
    requires Flatten(chunks) == Flatten(frames)
    ensures Feed(options, [], chunks) == EachFrame(options, frames)
  {
    hide CutSafe;
    WholeFrames(options, frames);
    SettledIsSafe(options, Flatten(frames));
    ChunkingDoesNotMatter(options, Flatten(frames));
  }

  function Frames(packets: seq<PacketEnvelope>): seq<ByteBuffer> {
    if packets == [] then [] else [Frame(packets[0])] + Frames(packets[1..])
  }

  ghost predicate Sendable(options: CodecOptions, p: PacketEnvelope) {
    Decode(options, Frame(p)) == Decoded(p)
  }

  lemma {:induction false} FramesOfSendable(options: CodecOptions, packets: seq<PacketEnvelope>)
    requires forall p :: p in packets ==> Sendable(options, p)
    ensures forall f :: f in Frames(packets) ==> WellFramed(options, f)
    ensures EachFrame(options, Frames(packets)) == Reassembly([], packets, 0, false)
  {
    hide Frame;
    if packets != [] {
      assert Sendable(options, packets[0]);
      assert Frames(packets)[1..] == Frames(packets[1..]);
      FramesOfSendable(options, packets[1..]);
    }
  }

  /** The encodings of any packets the codec round-trips, sent back to back and cut anywhere, arrive as
      exactly those packets in order. */
  lemma DeliversPackets(options: CodecOptions, packets: seq<PacketEnvelope>, chunks: seq<ByteBuffer>)
    requires forall p :: p in packets ==> Sendable(options, p)
    requires Flatten(chunks) == Flatten(Frames(packets))
    ensures Feed(options, [], chunks) == Reassembly([], packets, 0, false)
  {
    hide Frame, Decode;
    FramesOfSendable(options, packets);
    DeliversFrames(options, Frames(packets), chunks);
  }

  /** After an unreadable header the cutting does matter: a good frame behind it is lost when both arrive
      together and delivered when it arrives alone. */
  lemma CuttingMattersAfterBadHeader(options: CodecOptions, p: PacketEnvelope)
    requires Sendable(options, p)
    ensures var bad := Zeros(100);
            && Feed(options, [], [bad + Frame(p)]) == Reassembly([], [], 1, true)
            && Feed(options, [], [bad, Frame(p)]) == Reassembly([], [p], 1, true)
  {
    hide Frame, Decode;
    var bad, good := Zeros(100), Frame(p);
    Dropped(options, bad + good);
    Dropped(options, bad);
    assert [] + (bad + good) == bad + good && [] + bad == bad && [] + good == good;
    DeliversPackets(options, [p], [good]);
    assert Frames([p]) == [good];
    assert Feed(options, [], [good]) == Reassembly([], [p], 0, false);
    assert [bad, good][1..] == [good];
  }

  lemma Dropped(options: CodecOptions, bytes: ByteBuffer)
    requires |bytes| >= 100 && bytes[..4] == [0, 0, 0, 0]
    ensures Reassemble(options, bytes) == Reassembly([], [], 1, true)
  {
    assert bytes[0] == bytes[..4][0] && bytes[1] == bytes[..4][1] && bytes[2] == bytes[..4][2]
           && bytes[3] == bytes[..4][3];
  }

  /** Every well-framed frame yields one packet or one failure. */
  lemma {:induction false} EveryFrameCounts(options: CodecOptions, frames: seq<ByteBuffer>)
    ensures var r := EachFrame(options, frames); |r.packets| + r.failures == |frames| && r.rest == []
  {
    if frames != [] {
      EveryFrameCounts(options, frames[1..]);
      OneFrameLosesNothing(options, frames[0]);
    }
  }
}
