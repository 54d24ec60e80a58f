/** Reading a remote file in chunks: into a sink until its end, or as one window of bytes. */
module FileRangeTransfer {
  import opened ProtocolTypes

  const UINT64_MAX: nat := 0xffff_ffff_ffff_ffff

  datatype RangeRequest = RangeRequest(offset: uint64, requestedBytes: uint64)

  datatype RangeResult = RangeResult(status: uint16, bytes: ByteBuffer, endOfFile: bool) {
    predicate Ok() {
      status == STATUS_OK
    }
  }

  datatype DrainResult = DrainResult(status: uint16, bytesWritten: nat, chunksWritten: nat, endOfFile: bool)

  /** A remote reader may answer each call differently, so its behaviour is a function of the call's number
      as well as of the request; a sink likewise. */
  type Reader = (nat, RangeRequest) -> RangeResult
  type Sink = (nat, RangeRequest, RangeResult) -> uint16

  /** Bytes [offset, offset + n) of the file, as far as it has them. */
  function Slice(file: ByteBuffer, offset: nat, n: nat): ByteBuffer {
    if offset >= |file| then [] else file[offset..Min(offset + n, |file|)]
  }

  /** A truthful answer: a non-empty run of the file's own bytes at the requested offset, as short as the
      reader likes, flagged as the end exactly when it reaches it. */
  ghost predicate Truthful(file: ByteBuffer, request: RangeRequest, result: RangeResult) {
    && result.Ok()
    && |result.bytes| <= request.requestedBytes
    && result.bytes == Slice(file, request.offset, |result.bytes|)
    && (result.endOfFile <==> request.offset + |result.bytes| >= |file|)
    && (|result.bytes| == 0 ==> result.endOfFile)
  }

  ghost predicate HonestReader(file: ByteBuffer, reader: Reader) {
    |file| <= UINT64_MAX && forall i: nat, request: RangeRequest :: request.requestedBytes > 0 ==>
        Truthful(file, request, reader(i, request))
  }

  ghost predicate AcceptingSink(sink: Sink) {
    forall i: nat, request: RangeRequest, range: RangeResult :: sink(i, request, range) == STATUS_OK
  }

  /** `bytes` are the file's bytes from `offset` on, and the file has more of them if `more`. */
  ghost predicate RunOf(file: ByteBuffer, offset: nat, bytes: ByteBuffer, more: bool) {
    bytes == Slice(file, offset, |bytes|) && (more ==> bytes == [] || offset + |bytes| < |file|)
  }

  lemma RunGrows(file: ByteBuffer, offset: nat, bytes: ByteBuffer, request: RangeRequest, range: RangeResult)
    requires RunOf(file, offset, bytes, true) && request.offset == offset + |bytes|
    requires Truthful(file, request, range)
    ensures RunOf(file, offset, bytes + range.bytes, !range.endOfFile)
    ensures range.endOfFile <==> offset + |bytes + range.bytes| >= |file|
  {
  }

  /** The bytes of the replies to these requests, in order. */
  function BytesOf(reader: Reader, asked: seq<RangeRequest>): ByteBuffer {
    if asked == [] then []
    else BytesOf(reader, asked[..|asked| - 1]) + reader(|asked| - 1, asked[|asked| - 1]).bytes
  }

  /** Request `i` goes on where the replies before it end, for what is still wanted but no more than a chunk; and the
      replies before it brought some bytes, no more than were asked for, and not the end. */
  ghost predicate AskedInTurn(reader: Reader, offset: nat, wanted: nat, chunk: nat, asked: seq<RangeRequest>, i: nat)
    requires i < |asked|
  {
    var got := |BytesOf(reader, asked[..i])|;
    && got < wanted && asked[i].offset == offset + got && asked[i].requestedBytes == Min(wanted - got, chunk)
    && GoesOn(reader, asked[..i])
  }

  /** The last reply, if there was one, brought some bytes, no more than were asked for, and not the end. */
  ghost predicate GoesOn(reader: Reader, asked: seq<RangeRequest>) {
    asked != [] ==>
      var reply := reader(|asked| - 1, asked[|asked| - 1]);
      reply.Ok() && !reply.endOfFile && 0 < |reply.bytes| <= asked[|asked| - 1].requestedBytes
  }

  ghost predicate AllInTurn(reader: Reader, offset: nat, wanted: nat, chunk: nat, asked: seq<RangeRequest>) {
    forall i :: 0 <= i < |asked| ==> AskedInTurn(reader, offset, wanted, chunk, asked, i)
  }

  lemma NothingAsked(reader: Reader, offset: nat, wanted: nat, chunk: nat)
    ensures AllInTurn(reader, offset, wanted, chunk, []) && BytesOf(reader, []) == []
  {
  }

  lemma TakesItsTurn(reader: Reader, offset: nat, wanted: nat, chunk: nat, asked: seq<RangeRequest>,
                     request: RangeRequest)
    requires AllInTurn(reader, offset, wanted, chunk, asked) && GoesOn(reader, asked)
    requires var got := |BytesOf(reader, asked)|;
             got < wanted && request.offset == offset + got && request.requestedBytes == Min(wanted - got, chunk)
    ensures AllInTurn(reader, offset, wanted, chunk, asked + [request])
    ensures BytesOf(reader, asked + [request]) == BytesOf(reader, asked) + reader(|asked|, request).bytes
  {
    hide GoesOn;
    var longer := asked + [request];
    assert longer[..|asked|] == asked && longer[..|longer| - 1] == asked;
    forall i | 0 <= i <= |asked| ensures AskedInTurn(reader, offset, wanted, chunk, longer, i) {
      if i < |asked| {
        assert longer[..i] == asked[..i];
        assert AskedInTurn(reader, offset, wanted, chunk, asked, i);
      }
    }
  }

  /** A drain without a cap wants more than it can ever get. */
  function WantedBy(maxTotalBytes: nat): nat {
    if maxTotalBytes == 0 then 2 * UINT64_MAX else maxTotalBytes
  }

  /** The sink took every reply but the last. */
  ghost predicate AllTaken(reader: Reader, sink: Sink, asked: seq<RangeRequest>) {
    forall i :: 0 <= i < |asked| - 1 ==> sink(i, asked[i], reader(i, asked[i])) == STATUS_OK
  }

  /** How a drain ends after its last reply: a failure is passed on, a malformed reply is a protocol error, a reply that
      fills the cap short of the end is too large, and the sink's refusal is passed on; none of them is written.
      What is written last reaches the end, or the last 64-bit offset. */
  ghost predicate DrainEndsWith(reader: Reader, sink: Sink, baseOffset: nat, maxTotalBytes: nat,
                                asked: seq<RangeRequest>, result: DrainResult, written: ByteBuffer)
    requires asked != []
  {
    var last := |asked| - 1;
    var reply := reader(last, asked[last]);
    var verdict := sink(last, asked[last], reply);
    var whole := BytesOf(reader, asked);
    var failure :=
      if !reply.Ok() then Some(reply.status)
      else if |reply.bytes| > asked[last].requestedBytes || (reply.bytes == [] && !reply.endOfFile) then
        Some(STATUS_PROTOCOL_ERROR)
      else if |whole| == maxTotalBytes != 0 && !reply.endOfFile then Some(STATUS_TOO_LARGE)
      else if verdict != STATUS_OK then Some(verdict)
      else None;
    if failure.Some? then
      result == DrainResult(failure.value, |written|, last, false) && written == BytesOf(reader, asked[..last])
    else
      && written == whole && result.chunksWritten == |asked|
      && if reply.endOfFile then result.status == STATUS_OK
         else result.status == STATUS_PROTOCOL_ERROR && baseOffset + |written| > UINT64_MAX
  }

  /** `file` is any file and `written` collects what the sink accepted. If the reader is honest about the
      file, then on every exit the sink holds the beginning of it from the base offset, never more than a
      non-zero cap; with a sink that accepts everything the drain succeeds exactly when there is no cap or
      the rest of the file fits it. Any reader at all is asked in turn, until a reply or the sink's verdict on it
      ends the drain; since each call advances a 64-bit offset, one does. */
  method DrainRemoteFileRange(reader: Reader, sink: Sink, baseOffset: uint64, chunkBytes: uint64, maxTotalBytes: uint64,
                              ghost file: ByteBuffer)
    returns (result: DrainResult, ghost written: ByteBuffer, ghost asked: seq<RangeRequest>)
    ensures result.bytesWritten == |written|
    ensures maxTotalBytes != 0 ==> |written| <= maxTotalBytes
    ensures result.endOfFile <==> result.status == STATUS_OK
    ensures chunkBytes == 0 ==> asked == [] && result == DrainResult(STATUS_INVALID_ARGUMENT, 0, 0, false)
    ensures AllInTurn(reader, baseOffset, WantedBy(maxTotalBytes), chunkBytes, asked) && AllTaken(reader, sink, asked)
    ensures chunkBytes > 0 ==>
              asked != [] && DrainEndsWith(reader, sink, baseOffset, maxTotalBytes, asked, result, written)
    ensures HonestReader(file, reader) ==> written == Slice(file, baseOffset, |written|)
    ensures HonestReader(file, reader) && result.status == STATUS_OK ==> baseOffset + |written| >= |file|
    ensures HonestReader(file, reader) && AcceptingSink(sink) && chunkBytes > 0 ==>
              (result.status == STATUS_OK <==> maxTotalBytes == 0 || |file| - baseOffset <= maxTotalBytes)
  {
    hide Slice, AllInTurn, BytesOf;
    result, written, asked := DrainResult(STATUS_FAILED, 0, 0, false), [], [];
    NothingIsARun(file, baseOffset);
    NothingAsked(reader, baseOffset, WantedBy(maxTotalBytes), chunkBytes);
    if chunkBytes == 0 {
      result := result.(status := STATUS_INVALID_ARGUMENT);
      return;
    }
    var offset: nat, calls: nat := baseOffset, 0;
    while true
      invariant offset == baseOffset + |written| <= UINT64_MAX
      invariant result == DrainResult(STATUS_FAILED, |written|, calls, false)
      invariant maxTotalBytes != 0 ==> |written| < maxTotalBytes
      invariant |asked| == calls && written == BytesOf(reader, asked)
      invariant AllInTurn(reader, baseOffset, WantedBy(maxTotalBytes), chunkBytes, asked) && GoesOn(reader, asked)
      invariant AllTaken(reader, sink, asked)
      invariant forall i :: 0 <= i < |asked| ==> sink(i, asked[i], reader(i, asked[i])) == STATUS_OK
      invariant HonestReader(file, reader) ==> RunOf(file, baseOffset, written, true)
      decreases UINT64_MAX - offset
    {
      if maxTotalBytes != 0 && result.bytesWritten >= maxTotalBytes {
        // A reply that fills the cap has ended the drain already.
        assert false;
      }
      var requestedBytes: uint64 := chunkBytes;
      if maxTotalBytes != 0 {
        requestedBytes := Min(requestedBytes, maxTotalBytes - result.bytesWritten);
      }
      var request := RangeRequest(offset, requestedBytes);
      var range := reader(calls, request);
      TakesItsTurn(reader, baseOffset, WantedBy(maxTotalBytes), chunkBytes, asked, request);
      asked := asked + [request];
      assert asked[..calls] == asked[..|asked| - 1];
      if !range.Ok() {
        result := result.(status := range.status);
        return;
      }
      var received := |range.bytes|;
      if received > requestedBytes || (received == 0 && !range.endOfFile) {
        result := result.(status := STATUS_PROTOCOL_ERROR);
        return;
      }
      if HonestReader(file, reader) {
        RunGrows(file, baseOffset, written, request, range);
      }
      if maxTotalBytes != 0 && received == maxTotalBytes - result.bytesWritten && !range.endOfFile {
        result := result.(status := STATUS_TOO_LARGE);
        return;
      }
      var accepted := sink(calls, request, range);
      if accepted != STATUS_OK {
        result := result.(status := accepted);
        return;
      }
      written := written + range.bytes;
      result := result.(bytesWritten := result.bytesWritten + received, chunksWritten := result.chunksWritten + 1);
      if range.endOfFile {
        result := result.(status := STATUS_OK, endOfFile := true);
        return;
      }
      if offset > UINT64_MAX - received {
        result := result.(status := STATUS_PROTOCOL_ERROR);
        return;
      }
      offset := offset + received;
      calls := calls + 1;
    }
  }

  lemma NothingIsARun(file: ByteBuffer, offset: nat)
    ensures RunOf(file, offset, [], true)
  {
  }

  lemma WholeWindow(file: ByteBuffer, offset: nat, bytes: ByteBuffer, wanted: nat)
    requires bytes == Slice(file, offset, |bytes|) && |bytes| <= wanted
    requires |bytes| == wanted || offset + |bytes| >= |file|
    ensures bytes == Slice(file, offset, wanted)
  {
  }

  /** How a window ends after its last reply: a failure is passed on as it is; a reply with too much, or with nothing
      and no end, is a protocol error, as is one that runs past the last 64-bit offset; otherwise the window is all
      the bytes that came, and they are all that was wanted or reach the end. */
  ghost predicate EndsWith(reader: Reader, wanted: nat, asked: seq<RangeRequest>, result: RangeResult)
    requires asked != []
  {
    var request, reply := asked[|asked| - 1], reader(|asked| - 1, asked[|asked| - 1]);
    var broken := RangeResult(STATUS_PROTOCOL_ERROR, [], false);
    if !reply.Ok() then result == reply
    else if |reply.bytes| > request.requestedBytes || (reply.bytes == [] && !reply.endOfFile) then result == broken
    else if !reply.endOfFile && request.offset + |reply.bytes| > UINT64_MAX then result == broken
    else
      && result == RangeResult(STATUS_OK, BytesOf(reader, asked), reply.endOfFile)
      && (reply.endOfFile || |BytesOf(reader, asked)| == wanted)
  }

  /** If the reader is honest about `file`, the window is the plain slice of the file, whatever the chunk
      size and however short the reads, and it says whether the end of the file was reached. Any reader is
      asked at most `requestedBytes` times, in turn, and its last reply decides. */
  method ReadRemoteFileRangeWindow(reader: Reader, offset: uint64, requestedBytes: uint64, chunkBytes: uint64,
                                   ghost file: ByteBuffer)
    returns (result: RangeResult, ghost asked: seq<RangeRequest>)
    ensures |asked| <= requestedBytes
    ensures AllInTurn(reader, offset, requestedBytes, chunkBytes, asked)
    ensures requestedBytes > 0 && chunkBytes > 0 ==> asked != [] && EndsWith(reader, requestedBytes, asked, result)
    ensures requestedBytes == 0 ==> result == RangeResult(STATUS_OK, [], false)
    ensures requestedBytes > 0 && chunkBytes == 0 ==> result == RangeResult(STATUS_INVALID_ARGUMENT, [], false)
    ensures HonestReader(file, reader) && requestedBytes > 0 && chunkBytes > 0 ==>
              result == RangeResult(STATUS_OK, Slice(file, offset, requestedBytes), offset + requestedBytes >= |file|)
  {
    hide Slice, AllInTurn, BytesOf;
    NothingAsked(reader, offset, requestedBytes, chunkBytes);
    result, asked := RangeResult(STATUS_FAILED, [], false), [];
    NothingIsARun(file, offset);
    if requestedBytes == 0 {
      result := result.(status := STATUS_OK);
      return;
    }
    if chunkBytes == 0 {
      result := result.(status := STATUS_INVALID_ARGUMENT);
      return;
    }
    var currentOffset: nat, remaining: nat, call: nat := offset, requestedBytes, 0;
    result := result.(status := STATUS_OK);
    while remaining > 0
      invariant result.Ok() && !result.endOfFile && |result.bytes| == requestedBytes - remaining
      invariant currentOffset == offset + |result.bytes| <= UINT64_MAX
      invariant |asked| == call <= |result.bytes| && result.bytes == BytesOf(reader, asked)
      invariant AllInTurn(reader, offset, requestedBytes, chunkBytes, asked) && GoesOn(reader, asked)
      invariant asked != [] && remaining == 0 ==> EndsWith(reader, requestedBytes, asked, result)
      invariant HonestReader(file, reader) ==> RunOf(file, offset, result.bytes, true)
      decreases remaining
    {
      var wanted: uint64 := Min(remaining, chunkBytes);
      var request := RangeRequest(currentOffset, wanted);
      var range := reader(call, request);
      TakesItsTurn(reader, offset, requestedBytes, chunkBytes, asked, request);
      asked := asked + [request];
      call := call + 1;
      if !range.Ok() {
        result := range;
        return;
      }
      var received := |range.bytes|;
      if received > wanted || (received == 0 && !range.endOfFile) {
        result := RangeResult(STATUS_PROTOCOL_ERROR, [], false);
        return;
      }
      if HonestReader(file, reader) {
        RunGrows(file, offset, result.bytes, request, range);
      }
      result := result.(bytes := result.bytes + range.bytes);
      if range.endOfFile {
        result := result.(endOfFile := true);
        if HonestReader(file, reader) {
          WholeWindow(file, offset, result.bytes, requestedBytes);
        }
        return;
      }
      if currentOffset > UINT64_MAX - received {
        result := RangeResult(STATUS_PROTOCOL_ERROR, [], false);
        return;
      }
      currentOffset := currentOffset + received;
      remaining := remaining - received;
    }
  }

  /** A reader that returns all it is asked for, as far as the file goes. */
  function FullReader(file: ByteBuffer): Reader {
    (call: nat, request: RangeRequest) =>
      RangeResult(STATUS_OK, Slice(file, request.offset, request.requestedBytes),
                  request.offset + request.requestedBytes >= |file|)
  }

  lemma FullReaderIsHonest(file: ByteBuffer)
    requires |file| <= UINT64_MAX
    ensures HonestReader(file, FullReader(file))
  {
  }
}
