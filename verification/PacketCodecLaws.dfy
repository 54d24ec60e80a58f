/** What the packet codec promises: exact round trips, and detection of every one-byte corruption. */
module PacketCodecLaws {
  import opened ProtocolTypes
  import opened ByteIo
  import opened Crc
  import opened ProtocolValidator
  import opened PacketCodec

  // ----- reading the groups of a laid-out header

  lemma SliceOfSlice(b: ByteBuffer, lo: nat, hi: nat, i: nat, j: nat)
    requires lo <= hi <= |b| && i <= j <= hi - lo
    ensures b[lo..hi][i..j] == b[lo + i..lo + j]
  {
    var s, t := b[lo..hi][i..j], b[lo + i..lo + j];
    assert |s| == |t| && forall k :: 0 <= k < |s| ==> s[k] == t[k];
  }

  lemma ReadsPreamble(b: ByteBuffer, p: PacketEnvelope)
    requires |b| >= 100 && b[0..18] == Preamble(p)
    ensures ReadU32(b, OFFSET_MAGIC) == MAGIC
    ensures ReadU16(b, OFFSET_HEADER_LENGTH) == HEADER_LENGTH
    ensures ReadU16(b, OFFSET_MAJOR) == p.protocolMajor
    ensures ReadU16(b, OFFSET_MINOR) == p.protocolMinor
    ensures ReadU16(b, OFFSET_CHANNEL_ID) == p.channelId
    ensures ReadU16(b, OFFSET_CHANNEL_TYPE) == p.channelType
    ensures ReadU16(b, OFFSET_PACKET_TYPE) == p.packetType
    ensures ReadU16(b, OFFSET_MESSAGE_KIND) == p.messageKind
  {
    var g := Preamble(p);
    assert b[0..4] == g[0..4] == U32(MAGIC);
    assert b[4..6] == g[4..6] == U16(HEADER_LENGTH);
    assert b[6..8] == g[6..8] == U16(p.protocolMajor);
    assert b[8..10] == g[8..10] == U16(p.protocolMinor);
    assert b[10..12] == g[10..12] == U16(p.channelId);
    assert b[12..14] == g[12..14] == U16(p.channelType);
    assert b[14..16] == g[14..16] == U16(p.packetType);
    assert b[16..18] == g[16..18] == U16(p.messageKind);
    ReadsU32(b, 0, MAGIC);
    ReadsU16(b, 4, HEADER_LENGTH);
    ReadsU16(b, 6, p.protocolMajor);
    ReadsU16(b, 8, p.protocolMinor);
    ReadsU16(b, 10, p.channelId);
    ReadsU16(b, 12, p.channelType);
    ReadsU16(b, 14, p.packetType);
    ReadsU16(b, 16, p.messageKind);
  }

  lemma ReadsQualifiers(b: ByteBuffer, p: PacketEnvelope)
    requires |b| >= 100 && b[18..28] == Qualifiers(p)
    ensures ReadU8(b, OFFSET_PRIORITY) == p.priority
    ensures ReadU16(b, OFFSET_STATUS) == p.responseStatus
    ensures ReadU32(b, OFFSET_FLAGS) == p.flags
    ensures b[19] == 0 && b[22] == 0 && b[23] == 0
  {
    var g := Qualifiers(p);
    assert b[18] == g[0] && b[19] == g[1] && b[22] == g[4] && b[23] == g[5];
    SliceOfSlice(b, 18, 28, 2, 4);
    SliceOfSlice(b, 18, 28, 6, 10);
    assert b[20..22] == g[2..4] == U16(p.responseStatus);
    assert b[24..28] == g[6..10] == U32(p.flags);
    ReadsU16(b, 20, p.responseStatus);
    ReadsU32(b, 24, p.flags);
  }

  lemma ReadsIdentity(b: ByteBuffer, p: PacketEnvelope)
    requires |b| >= 100 && b[28..84] == Identity(p)
    ensures ReadU64(b, OFFSET_SESSION_ID) == p.sessionId
    ensures ReadU64(b, OFFSET_TRACE_ID) == p.traceId
    ensures ReadU64(b, OFFSET_MESSAGE_ID) == p.messageId
    ensures ReadU64(b, OFFSET_CORRELATION_ID) == p.correlationId
    ensures ReadU64(b, OFFSET_RESPONSE_TO) == p.responseTo
    ensures ReadU64(b, OFFSET_SEQUENCE) == p.sequence
    ensures ReadU64(b, OFFSET_TIMESTAMP) == p.timestampUsec
  {
    var g := Identity(p);
    SliceOfSlice(b, 28, 84, 0, 8);
    assert b[28..36] == g[0..8] == U64(p.sessionId);
    SliceOfSlice(b, 28, 84, 8, 16);
    assert b[36..44] == g[8..16] == U64(p.traceId);
    SliceOfSlice(b, 28, 84, 16, 24);
    assert b[44..52] == g[16..24] == U64(p.messageId);
    SliceOfSlice(b, 28, 84, 24, 32);
    assert b[52..60] == g[24..32] == U64(p.correlationId);
    SliceOfSlice(b, 28, 84, 32, 40);
    assert b[60..68] == g[32..40] == U64(p.responseTo);
    SliceOfSlice(b, 28, 84, 40, 48);
    assert b[68..76] == g[40..48] == U64(p.sequence);
    SliceOfSlice(b, 28, 84, 48, 56);
    assert b[76..84] == g[48..56] == U64(p.timestampUsec);
    ReadsU64(b, 28, p.sessionId);
    ReadsU64(b, 36, p.traceId);
    ReadsU64(b, 44, p.messageId);
    ReadsU64(b, 52, p.correlationId);
    ReadsU64(b, 60, p.responseTo);
    ReadsU64(b, 68, p.sequence);
    ReadsU64(b, 76, p.timestampUsec);
  }

  lemma ReadsSizes(b: ByteBuffer, p: PacketEnvelope)
    requires |b| >= 100 && b[84..92] == Sizes(p)
    ensures ReadU32(b, OFFSET_TIMEOUT) == p.timeoutMs
    ensures ReadU32(b, OFFSET_PAYLOAD_LENGTH) == PayloadLengthField(p)
  {
    var g := Sizes(p);
    assert b[84..88] == g[0..4] == U32(p.timeoutMs);
    assert b[88..92] == g[4..8] == U32(PayloadLengthField(p));
    ReadsU32(b, 84, p.timeoutMs);
    ReadsU32(b, 88, PayloadLengthField(p));
  }

  /** The groups of a header, cut back out of any frame that starts with it. */
  lemma HeaderGroups(p: PacketEnvelope, headerCrc: uint32, rest: ByteBuffer)
    ensures var b := Header(p, headerCrc) + rest;
            && b[..100] == Header(p, headerCrc) && b[100..] == rest
            && b[0..18] == Preamble(p) && b[18..28] == Qualifiers(p) && b[28..84] == Identity(p)
            && b[84..92] == Sizes(p) && b[92..96] == U32(headerCrc) && b[96..100] == U32(Checksum(p.payload))
  {
    hide U32, Checksum, Preamble, Qualifiers, Identity, Sizes;
  }

  /** What a reader finds in the frame of `p`. */
  ghost predicate ReadsAs(b: ByteBuffer, p: PacketEnvelope) {
    && |b| == 100 + |p.payload|
    && ReadU32(b, OFFSET_MAGIC) == MAGIC && ReadU16(b, OFFSET_HEADER_LENGTH) == HEADER_LENGTH
    && ReadU32(b, OFFSET_PAYLOAD_LENGTH) == PayloadLengthField(p)
    && ParseFields(b) == p
    && b[19] == 0 && b[22] == 0 && b[23] == 0
    && ReadU32(b[..100], OFFSET_HEADER_CRC) == Checksum(HeaderForChecksum(b[..100]))
    && ReadU32(b, OFFSET_PAYLOAD_CRC) == Checksum(b[100..])
  }

  lemma ChecksumsReadBack(p: PacketEnvelope, crc: uint32)
    requires crc == Checksum(Header(p, 0))
    ensures var b := Header(p, crc) + p.payload;
            && ReadU32(b[..100], OFFSET_HEADER_CRC) == Checksum(HeaderForChecksum(b[..100]))
            && ReadU32(b, OFFSET_PAYLOAD_CRC) == Checksum(b[100..])
  {
    var b := Header(p, crc) + p.payload;
    HeaderGroups(p, crc, p.payload);
    SliceOfSlice(b, 0, 100, 92, 96);
    ReadsU32(b[..100], 92, crc);
    ReadsU32(b, 96, Checksum(p.payload));
    ZeroedHeader(p, crc);
  }

  lemma ZeroedHeader(p: PacketEnvelope, crc: uint32)
    ensures HeaderForChecksum(Header(p, crc)) == Header(p, 0)
  {
    hide Fields, Checksum;
    assert U32(0) == [0, 0, 0, 0];
    assert Header(p, crc)[..92] == Fields(p);
    assert Header(p, crc)[96..] == U32(Checksum(p.payload));
  }

  /** Every field, both checksums and the padding of a frame read back as they were written. */
  lemma FrameReadsBack(p: PacketEnvelope)
    ensures ReadsAs(Frame(p), p)
  {
    var crc := Checksum(Header(p, 0));
    var b := Header(p, crc) + p.payload;
    HeaderGroups(p, crc, p.payload);
    ReadsPreamble(b, p);
    ReadsQualifiers(b, p);
    ReadsIdentity(b, p);
    ReadsSizes(b, p);
    ChecksumsReadBack(p, crc);
  }

  // ----- round trips

  /** Decoding undoes encoding for exactly the packets that validate and whose payload length fits the
      32-bit length field, whichever checksums the receiver verifies. */
  lemma DecodeEncode(options: CodecOptions, p: PacketEnvelope)
    ensures Decode(options, Frame(p)) == Decoded(p)
       <==> Validate(DefaultOptions(options.maxPayloadBytes), p) == Valid && |p.payload| < 0x1_0000_0000
  {
    FrameReadsBack(p);
    DecodeOfReader(options, Frame(p), p);
  }

  /** Every packet that answers an accepted request round-trips as the request does. */
  lemma AnswersRoundTrip(options: CodecOptions, request: PacketEnvelope, kind: uint16)
    requires Decode(options, Frame(request)) == Decoded(request) && request.messageKind == KIND_REQUEST
    requires kind == KIND_RESPONSE || kind == KIND_ERROR || kind == KIND_PROGRESS
    ensures var answer := request.(messageKind := kind, responseTo := request.messageId);
            answer.responseTo != 0 && Decode(options, Frame(answer)) == Decoded(answer)
  {
    hide Frame, Decode, Validate;
    var answer := request.(messageKind := kind, responseTo := request.messageId);
    DecodeEncode(options, request);
    ValidExactlyWhen(DefaultOptions(options.maxPayloadBytes), request);
    AnswersAreValid(DefaultOptions(options.maxPayloadBytes), request, kind);
    DecodeEncode(options, answer);
  }

  lemma DecodeOfReader(options: CodecOptions, b: ByteBuffer, p: PacketEnvelope)
    requires ReadsAs(b, p)
    ensures Decode(options, b) == Decoded(p)
       <==> Validate(DefaultOptions(options.maxPayloadBytes), p) == Valid && |p.payload| < 0x1_0000_0000
  {
    hide Checksum, HeaderForChecksum, ReadU32, ReadU16;
    MajorStands(b);
  }

  lemma MajorStands(b: ByteBuffer)
    requires |b| >= 100
    ensures ReadU16(b, OFFSET_MAJOR) == ParseFields(b).protocolMajor && b[100..] == ParseFields(b).payload
  {
    hide ReadU16, ReadU32, ReadU64;
  }

  lemma PreambleOfFields(b: ByteBuffer)
    requires |b| >= 100 && ReadU32(b, OFFSET_MAGIC) == MAGIC && ReadU16(b, OFFSET_HEADER_LENGTH) == HEADER_LENGTH
    ensures Preamble(ParseFields(b)) == b[0..18]
  {
    U32OfRead(b, 0);
    U16OfRead(b, 4);
    U16OfRead(b, 6);
    U16OfRead(b, 8);
    U16OfRead(b, 10);
    U16OfRead(b, 12);
    U16OfRead(b, 14);
    U16OfRead(b, 16);
    assert b[0..18] == b[0..4] + b[4..6] + b[6..8] + b[8..10] + b[10..12] + b[12..14] + b[14..16] + b[16..18];
  }

  lemma QualifiersOfFields(b: ByteBuffer)
    requires |b| >= 100 && b[19] == 0 && b[22] == 0 && b[23] == 0
    ensures Qualifiers(ParseFields(b)) == b[18..28]
  {
    U16OfRead(b, 20);
    U32OfRead(b, 24);
    assert b[18..28] == [b[18]] + [b[19]] + b[20..22] + [b[22], b[23]] + b[24..28];
  }

  lemma IdentityOfFields(b: ByteBuffer)
    requires |b| >= 100
    ensures Identity(ParseFields(b)) == b[28..84]
  {
    U64OfRead(b, 28);
    U64OfRead(b, 36);
    U64OfRead(b, 44);
    U64OfRead(b, 52);
    U64OfRead(b, 60);
    U64OfRead(b, 68);
    U64OfRead(b, 76);
    assert b[28..84] == b[28..36] + b[36..44] + b[44..52] + b[52..60] + b[60..68] + b[68..76] + b[76..84];
  }

  lemma SizesOfFields(b: ByteBuffer)
    requires |b| >= 100 && ReadU32(b, OFFSET_PAYLOAD_LENGTH) == |b| - 100
    ensures Sizes(ParseFields(b)) == b[84..92]
  {
    hide U32, U16, U64, ReadU16, ReadU32, ReadU64;
    U32OfRead(b, 84);
    U32OfRead(b, 88);
    assert b[84..92] == b[84..88] + b[88..92];
  }

  lemma FieldsOfParsed(b: ByteBuffer)
    requires |b| >= 100 && ReadU32(b, OFFSET_MAGIC) == MAGIC && ReadU16(b, OFFSET_HEADER_LENGTH) == HEADER_LENGTH
    requires ReadU32(b, OFFSET_PAYLOAD_LENGTH) == |b| - 100 && b[19] == 0 && b[22] == 0 && b[23] == 0
    ensures Fields(ParseFields(b)) == b[..92]
  {
    hide Preamble, Qualifiers, Identity, Sizes, ParseFields, ReadU32, ReadU16;
    PreambleOfFields(b);
    QualifiersOfFields(b);
    IdentityOfFields(b);
    SizesOfFields(b);
    assert b[..92] == b[0..18] + b[18..28] + b[28..84] + b[84..92];
  }

  lemma FrameOfParsed(b: ByteBuffer)
    requires |b| >= 100 && Fields(ParseFields(b)) == b[..92]
    requires ReadU32(b, OFFSET_HEADER_CRC) == Checksum(HeaderForChecksum(b[..100]))
    requires ReadU32(b, OFFSET_PAYLOAD_CRC) == Checksum(b[100..])
    ensures Frame(ParseFields(b)) == b
  {
    hide Checksum, Fields;
    var p := ParseFields(b);
    U32OfRead(b, 92);
    U32OfRead(b, 96);
    assert U32(0) == [0, 0, 0, 0];
    assert HeaderForChecksum(b[..100]) == Header(p, 0);
    assert b == b[..92] + b[92..96] + b[96..100] + b[100..];
  }

  ghost predicate ChecksumsMatch(b: ByteBuffer)
    requires |b| >= 100
  {
    && ReadU32(b[..100], OFFSET_HEADER_CRC) == Checksum(HeaderForChecksum(b[..100]))
    && ReadU32(b, OFFSET_PAYLOAD_CRC) == Checksum(b[100..])
  }

  /** Whichever checksums the receiver verifies: an accepted frame re-encodes to itself exactly when its three
      padding bytes are zero and both stored checksums are right, so decoding drops nothing else. */
  lemma EncodeDecode(options: CodecOptions, b: ByteBuffer)
    requires Decode(options, b).Decoded?
    ensures |b| >= 100
    ensures Frame(Decode(options, b).packet) == b <==> b[19] == 0 && b[22] == 0 && b[23] == 0 && ChecksumsMatch(b)
    ensures options.validateHeaderCrc && options.validatePayloadCrc ==> ChecksumsMatch(b)
  {
    hide Checksum, Fields, Frame;
    var p := Decode(options, b).packet;
    assert p == ParseFields(b);
    FrameReadsBack(p);
    if b[19] == 0 && b[22] == 0 && b[23] == 0 && ChecksumsMatch(b) {
      FieldsOfParsed(b);
      FrameOfParsed(b);
    }
  }

  // ----- corruption

  lemma ReadTouchesOnlyItsBytes(b: ByteBuffer, k: nat, byte: uint8, offset: nat)
    requires k < |b| && offset + 4 <= |b| && !(offset <= k < offset + 4)
    ensures ReadU32(b[k := byte], offset) == ReadU32(b, offset)
  {
  }

  lemma ReadSeesItsBytes(b: ByteBuffer, k: nat, byte: uint8, offset: nat)
    requires offset <= k < offset + 4 <= |b| && b[k] != byte
    ensures ReadU32(b[k := byte], offset) != ReadU32(b, offset)
  {
    U32OfRead(b, offset);
    U32OfRead(b[k := byte], offset);
    assert b[k := byte][offset..offset + 4][k - offset] != b[offset..offset + 4][k - offset];
  }

  lemma HeaderCorruptionDetected(options: CodecOptions, b: ByteBuffer, p: PacketEnvelope, k: nat, byte: uint8)
    requires options.validateHeaderCrc && ReadsAs(b, p) && k < 100 && b[k] != byte
    ensures Decode(options, b[k := byte]).DecodeFailed?
  {
    hide Checksum, Validate, ParseFields;
    var c, header := b[k := byte], b[..100];
    assert c[..100] == header[k := byte];
    if OFFSET_HEADER_CRC <= k < OFFSET_PAYLOAD_CRC {
      assert HeaderForChecksum(c[..100]) == HeaderForChecksum(header);
      ReadSeesItsBytes(header, k, byte, OFFSET_HEADER_CRC);
    } else {
      assert HeaderForChecksum(c[..100]) == HeaderForChecksum(header)[k := byte];
      assert HeaderForChecksum(header)[k] == header[k];
      OneByteChangesChecksum(HeaderForChecksum(header), k, byte);
      ReadTouchesOnlyItsBytes(header, k, byte, OFFSET_HEADER_CRC);
    }
  }

  lemma PayloadCorruptionDetected(options: CodecOptions, b: ByteBuffer, p: PacketEnvelope, k: nat, byte: uint8)
    requires options.validatePayloadCrc || options.maxPayloadBytes == 0
    requires ReadsAs(b, p) && 100 <= k < |b| && b[k] != byte
    ensures Decode(options, b[k := byte]).DecodeFailed?
  {
    hide Checksum, Validate, ParseFields;
    assert b[k := byte][100..] == b[100..][k - 100 := byte];
    OneByteChangesChecksum(b[100..], k - 100, byte);
    ReadTouchesOnlyItsBytes(b, k, byte, OFFSET_PAYLOAD_CRC);
    ReadTouchesOnlyItsBytes(b, k, byte, OFFSET_PAYLOAD_LENGTH);
  }

  ghost predicate DetectsEveryOneByteChange(options: CodecOptions) {
    forall p: PacketEnvelope, k: nat, byte: uint8 :: CorruptionDetected(options, p, k, byte)
  }

  ghost predicate CorruptionDetected(options: CodecOptions, p: PacketEnvelope, k: nat, byte: uint8) {
    k < |Frame(p)| && Frame(p)[k] != byte ==> Decode(options, Frame(p)[k := byte]).DecodeFailed?
  }

  function Heartbeat(payload: ByteBuffer): PacketEnvelope {
    PacketEnvelope(CURRENT_PROTOCOL_MAJOR, CURRENT_PROTOCOL_MINOR, 1, 0, 0, 0, 0, CHANNEL_ID_USER_AUTH_MAIN,
                   CHANNEL_CONTROL, PACKET_HEARTBEAT, KIND_EVENT, PRIORITY_NORMAL, STATUS_OK, 0, 0, 0, 0, payload)
  }

  /** Without the header checksum a flipped padding byte goes unseen. */
  lemma UnseenHeaderChange(options: CodecOptions)
    requires !options.validateHeaderCrc
    ensures !DetectsEveryOneByteChange(options)
  {
    hide Checksum, Frame;
    var p := Heartbeat([]);
    FrameReadsBack(p);
    DecodesDespitePadding(options, Frame(p), p);
    assert !CorruptionDetected(options, p, 19, 1);
  }

  lemma DecodesDespitePadding(options: CodecOptions, b: ByteBuffer, p: PacketEnvelope)
    requires !options.validateHeaderCrc && ReadsAs(b, p)
    requires Validate(DefaultOptions(options.maxPayloadBytes), p) == Valid && |p.payload| < 0x1_0000_0000
    ensures Decode(options, b[19 := 1]) == Decoded(p)
  {
    hide Checksum, Validate, ParseFields;
    var c := b[19 := 1];
    assert c[100..] == b[100..];
    ReadTouchesOnlyItsBytes(b, 19, 1, OFFSET_MAGIC);
    ReadTouchesOnlyItsBytes(b, 19, 1, OFFSET_PAYLOAD_LENGTH);
    ReadTouchesOnlyItsBytes(b, 19, 1, OFFSET_PAYLOAD_CRC);
    PaddingIsIgnored(b, 1);
    DecodeOfReader(options, b, p);
  }

  lemma PaddingIsIgnored(b: ByteBuffer, byte: uint8)
    requires |b| >= 100
    ensures ParseFields(b[19 := byte]) == ParseFields(b)
  {
    assert b[19 := byte][100..] == b[100..];
  }

  lemma ParsedFieldsStandInTheHeader(b: ByteBuffer, c: ByteBuffer)
    requires |b| >= 100 && |c| >= 100 && b[..100] == c[..100]
    ensures ParseFields(c) == ParseFields(b).(payload := c[100..])
    ensures forall o :: CheckHeader(o, c) == CheckHeader(o, b)
    ensures ReadU32(c, OFFSET_PAYLOAD_LENGTH) == ReadU32(b, OFFSET_PAYLOAD_LENGTH)
  {
    assert forall i :: 0 <= i < 100 ==> b[i] == b[..100][i] == c[..100][i] == c[i];
  }

  /** Without the payload checksum a changed payload byte goes unseen, if any payload is accepted. */
  lemma UnseenPayloadChange(options: CodecOptions)
    requires !options.validatePayloadCrc && options.maxPayloadBytes > 0
    ensures !DetectsEveryOneByteChange(options)
  {
    hide Checksum, Frame, ParseFields, HeaderForChecksum, ReadU16, ReadU32, CheckHeader;
    var p := Heartbeat([0]);
    FrameReadsBack(p);
    DecodeOfReader(options, Frame(p), p);
    ChangedPayload(p, 1);
    assert !CorruptionDetected(options, p, 100, 1);
  }

  lemma ChangedPayload(p: PacketEnvelope, byte: uint8)
    requires |p.payload| == 1
    ensures var b := Frame(p);
            && |b| == 101 && b[100] == p.payload[0]
            && ParseFields(b[100 := byte]) == p.(payload := [byte])
            && (forall o :: CheckHeader(o, b[100 := byte]) == CheckHeader(o, b))
            && ReadU32(b[100 := byte], OFFSET_PAYLOAD_LENGTH) == ReadU32(b, OFFSET_PAYLOAD_LENGTH)
            && b[100 := byte][..100] == b[..100]
  {
    hide Checksum, ParseFields, HeaderForChecksum, ReadU16, ReadU32, CheckHeader, Header;
    var b := Frame(p);
    FrameReadsBack(p);
    var c := b[100 := byte];
    assert c[..100] == b[..100] && c[100..] == [byte];
    ParsedFieldsStandInTheHeader(b, c);
  }

  /** The codec rejects every frame with one byte changed, at any position of any packet's encoding and
      for any payload length, exactly when it verifies both checksums (a codec that admits no payload at
      all needs only the header's). */
  lemma OneByteCorruption(options: CodecOptions)
    ensures DetectsEveryOneByteChange(options)
       <==> options.validateHeaderCrc && (options.validatePayloadCrc || options.maxPayloadBytes == 0)
  {
    hide Frame, Decode;
    if options.validateHeaderCrc && (options.validatePayloadCrc || options.maxPayloadBytes == 0) {
      forall p: PacketEnvelope, k: nat, byte: uint8 ensures CorruptionDetected(options, p, k, byte) {
        if k < |Frame(p)| && Frame(p)[k] != byte {
          FrameReadsBack(p);
          if k < 100 {
            HeaderCorruptionDetected(options, Frame(p), p, k, byte);
          } else {
            PayloadCorruptionDetected(options, Frame(p), p, k, byte);
          }
        }
      }
    } else if !options.validateHeaderCrc {
      UnseenHeaderChange(options);
    } else {
      UnseenPayloadChange(options);
    }
  }

  // ----- the layout

  /** Where every field of a packet stands in its frame. */
  lemma FieldOffsets(p: PacketEnvelope)
    ensures var b := Frame(p);
            && |b| == 100 + |p.payload| && b[100..] == p.payload && b[18] == p.priority
            && b[19] == 0 && b[22] == 0 && b[23] == 0
    ensures var b := Frame(p);
            && BigEndian(b, 0, 4) == 0x46443250 && BigEndian(b, 4, 2) == 100
            && BigEndian(b, 6, 2) == p.protocolMajor && BigEndian(b, 8, 2) == p.protocolMinor
            && BigEndian(b, 10, 2) == p.channelId && BigEndian(b, 12, 2) == p.channelType
            && BigEndian(b, 14, 2) == p.packetType && BigEndian(b, 16, 2) == p.messageKind
            && BigEndian(b, 20, 2) == p.responseStatus && BigEndian(b, 24, 4) == p.flags
    ensures var b := Frame(p);
            && BigEndian(b, 28, 8) == p.sessionId && BigEndian(b, 36, 8) == p.traceId
            && BigEndian(b, 44, 8) == p.messageId && BigEndian(b, 52, 8) == p.correlationId
            && BigEndian(b, 60, 8) == p.responseTo && BigEndian(b, 68, 8) == p.sequence
            && BigEndian(b, 76, 8) == p.timestampUsec
            && BigEndian(b, 84, 4) == p.timeoutMs && BigEndian(b, 88, 4) == |p.payload| % 0x1_0000_0000
  {
    hide Frame, Checksum, HeaderForChecksum, ReadU16, ReadU32, ReadU64, BigEndian;
    var b := Frame(p);
    FrameReadsBack(p);
    FirstFieldsStand(b, p);
    LastFieldsStand(b, p);
    assert b[100..] == p.payload;
  }

  lemma FirstFieldsStand(b: ByteBuffer, p: PacketEnvelope)
    requires |b| >= 100 && ParseFields(b) == p
    requires ReadU32(b, OFFSET_MAGIC) == MAGIC && ReadU16(b, OFFSET_HEADER_LENGTH) == HEADER_LENGTH
    ensures BigEndian(b, 0, 4) == 0x46443250 && BigEndian(b, 4, 2) == 100 && b[18] == p.priority
    ensures BigEndian(b, 6, 2) == p.protocolMajor && BigEndian(b, 8, 2) == p.protocolMinor
    ensures BigEndian(b, 10, 2) == p.channelId && BigEndian(b, 12, 2) == p.channelType
    ensures BigEndian(b, 14, 2) == p.packetType && BigEndian(b, 16, 2) == p.messageKind
    ensures BigEndian(b, 20, 2) == p.responseStatus && BigEndian(b, 24, 4) == p.flags
  {
    hide ReadU16, ReadU32, ReadU64, BigEndian;
    ReadsBigEndian32(b, 0);
    ReadsBigEndian16(b, 4);
    ReadsBigEndian16(b, 6);
    ReadsBigEndian16(b, 8);
    ReadsBigEndian16(b, 10);
    ReadsBigEndian16(b, 12);
    ReadsBigEndian16(b, 14);
    ReadsBigEndian16(b, 16);
    ReadsBigEndian16(b, 20);
    ReadsBigEndian32(b, 24);
  }

  lemma LastFieldsStand(b: ByteBuffer, p: PacketEnvelope)
    requires |b| >= 100 && ParseFields(b) == p && ReadU32(b, OFFSET_PAYLOAD_LENGTH) == PayloadLengthField(p)
    ensures BigEndian(b, 28, 8) == p.sessionId && BigEndian(b, 36, 8) == p.traceId
    ensures BigEndian(b, 44, 8) == p.messageId && BigEndian(b, 52, 8) == p.correlationId
    ensures BigEndian(b, 60, 8) == p.responseTo && BigEndian(b, 68, 8) == p.sequence
    ensures BigEndian(b, 76, 8) == p.timestampUsec
    ensures BigEndian(b, 84, 4) == p.timeoutMs && BigEndian(b, 88, 4) == |p.payload| % 0x1_0000_0000
  {
    hide ReadU16, ReadU32, ReadU64, BigEndian;
    ReadsBigEndian64(b, 28);
    ReadsBigEndian64(b, 36);
    ReadsBigEndian64(b, 44);
    ReadsBigEndian64(b, 52);
    ReadsBigEndian64(b, 60);
    ReadsBigEndian64(b, 68);
    ReadsBigEndian64(b, 76);
    ReadsBigEndian32(b, 84);
    ReadsBigEndian32(b, 88);
  }

  /** What a reader makes of the bytes it has: a header of the right magic, length and version whose payload fits, and
      all of that payload. Only with fewer bytes than that does it wait. */
  lemma ReadableExactlyWhen(options: CodecOptions, b: ByteBuffer)
    ensures var f := InspectFrame(options, b);
            if |b| < 100 then f.status == Incomplete
            else
              var size := 100 + BigEndian(b, 88, 4);
              var announced := BigEndian(b, 0, 4) == 0x46443250 && BigEndian(b, 4, 2) == 100 && BigEndian(b, 6, 2) == 1
                               && size - 100 <= options.maxPayloadBytes;
              && (f.status == Ok <==> announced && |b| >= size)
              && (f.status == Incomplete <==> announced && |b| < size)
              && (f.status == Ok ==> f.frameSize == size)
  {
    hide ReadU16, ReadU32, BigEndian;
    if |b| >= 100 {
      ReadsBigEndian32(b, 0);
      ReadsBigEndian16(b, 4);
      ReadsBigEndian16(b, 6);
      ReadsBigEndian32(b, 88);
    }
  }

  // ----- everything a decoder accepts

  /** The bytes with the padding cleared. */
  function Cleared(b: ByteBuffer): ByteBuffer
    requires |b| >= 100
  {
    b[19 := 0][22 := 0][23 := 0]
  }

  /** Up to the padding and the checksums these are the bytes of the frame of `p`, and the checksums that the receiver
      verifies are right: the one of the header over the header with that field zero, padding included. */
  ghost predicate Announces(options: CodecOptions, b: ByteBuffer, p: PacketEnvelope) {
    && |b| == 100 + |p.payload| && |p.payload| < 0x1_0000_0000
    && Cleared(b)[..92] == Frame(p)[..92] && b[100..] == p.payload
    && (options.validateHeaderCrc ==> BigEndian(b, 92, 4) == Checksum(b[..92] + [0, 0, 0, 0] + b[96..100]))
    && (options.validatePayloadCrc ==> BigEndian(b, 96, 4) == Checksum(p.payload))
  }

  /** The bytes that decode to a packet are exactly those that announce it, and only valid packets are decoded. */
  lemma AcceptedExactly(options: CodecOptions, b: ByteBuffer, p: PacketEnvelope)
    ensures Decode(options, b) == Decoded(p)
       <==> Announces(options, b, p) && Validate(DefaultOptions(options.maxPayloadBytes), p) == Valid
  {
    hide Frame, Fields, Checksum, Cleared, Validate, ParseFields, BigEndian, ReadU32, ReadU16, HeaderForChecksum;
    if |b| >= 100 {
      ChecksumsStand(b);
      MajorStands(b);
      if Decode(options, b) == Decoded(p) {
        AcceptedAnnounces(b);
      }
      if Announces(options, b, p) && Validate(DefaultOptions(options.maxPayloadBytes), p) == Valid {
        AnnouncedReads(b, p);
        ValidExactlyWhen(DefaultOptions(options.maxPayloadBytes), p);
      }
    }
  }

  lemma ChecksumsStand(b: ByteBuffer)
    requires |b| >= 100
    ensures ReadU32(b[..100], OFFSET_HEADER_CRC) == BigEndian(b, 92, 4)
    ensures ReadU32(b, OFFSET_PAYLOAD_CRC) == BigEndian(b, 96, 4)
    ensures HeaderForChecksum(b[..100]) == b[..92] + [0, 0, 0, 0] + b[96..100]
  {
    ReadsBigEndian32(b, 92);
    ReadsBigEndian32(b, 96);
    hide BigEndian;
    assert b[..100][..92] == b[..92] && b[..100][96..] == b[96..100];
  }

  lemma ClearedReadsTheSame(b: ByteBuffer)
    requires |b| >= 100
    ensures var c := Cleared(b);
            && |c| == |b| && c[100..] == b[100..] && c[19] == c[22] == c[23] == 0
            && ParseFields(c) == ParseFields(b) && ReadU32(c, OFFSET_MAGIC) == ReadU32(b, OFFSET_MAGIC)
            && ReadU16(c, OFFSET_HEADER_LENGTH) == ReadU16(b, OFFSET_HEADER_LENGTH)
            && ReadU32(c, OFFSET_PAYLOAD_LENGTH) == ReadU32(b, OFFSET_PAYLOAD_LENGTH)
  {
    assert Cleared(b)[100..] == b[100..];
  }

  lemma AcceptedAnnounces(b: ByteBuffer)
    requires |b| >= 100 && ReadU32(b, OFFSET_MAGIC) == MAGIC && ReadU16(b, OFFSET_HEADER_LENGTH) == HEADER_LENGTH
    requires ReadU32(b, OFFSET_PAYLOAD_LENGTH) == |b| - 100
    ensures Cleared(b)[..92] == Frame(ParseFields(b))[..92] && b[100..] == ParseFields(b).payload
  {
    hide Fields, Cleared, ReadU32, ReadU16, ReadU64, Checksum;
    ClearedReadsTheSame(b);
    FieldsOfParsed(Cleared(b));
    FrameStarts(ParseFields(b));
  }

  lemma FrameStarts(p: PacketEnvelope)
    ensures |Frame(p)| >= 92 && Frame(p)[..92] == Fields(p)
  {
    hide Fields, Checksum;
  }

  lemma AnnouncedReads(b: ByteBuffer, p: PacketEnvelope)
    requires |b| == 100 + |p.payload| && Cleared(b)[..92] == Frame(p)[..92] && b[100..] == p.payload
    ensures ReadU32(b, OFFSET_MAGIC) == MAGIC && ReadU16(b, OFFSET_HEADER_LENGTH) == HEADER_LENGTH
    ensures ReadU32(b, OFFSET_PAYLOAD_LENGTH) == PayloadLengthField(p) && ParseFields(b) == p
  {
    var c := Cleared(b);
    FrameStarts(p);
    ClearedReadsTheSame(b);
    GroupsOfFields(c, p);
    hide Cleared, Frame, Fields, Preamble, Qualifiers, Identity, Sizes, ReadU32, ReadU16, ReadU64, PayloadLengthField;
    ReadsPreamble(c, p);
    ReadsQualifiers(c, p);
    ReadsIdentity(c, p);
    ReadsSizes(c, p);
  }

  lemma GroupsOfFields(b: ByteBuffer, p: PacketEnvelope)
    requires |b| >= 100 && b[..92] == Fields(p)
    ensures b[0..18] == Preamble(p) && b[18..28] == Qualifiers(p) && b[28..84] == Identity(p) && b[84..92] == Sizes(p)
  {
    hide Preamble, Qualifiers, Identity, Sizes;
    SliceOfSlice(b, 0, 92, 0, 18);
    SliceOfSlice(b, 0, 92, 18, 28);
    SliceOfSlice(b, 0, 92, 28, 84);
    SliceOfSlice(b, 0, 92, 84, 92);
  }

  /** Why bytes are refused, in the order the decoder looks: the header, the length, the header checksum, the payload
      checksum, and last the packet itself. */
  lemma RefusedBecause(options: CodecOptions, b: ByteBuffer)
    requires Decode(options, b).DecodeFailed?
    ensures var status := Decode(options, b).status;
            if |b| < 100 then status == Incomplete
            else if BigEndian(b, 0, 4) != 0x46443250 then status == InvalidMagic
            else if BigEndian(b, 4, 2) != 100 then status == InvalidHeaderLength
            else if BigEndian(b, 6, 2) != 1 then status == UnsupportedVersion
            else if BigEndian(b, 88, 4) > options.maxPayloadBytes then status == PayloadTooLarge
            else if |b| != 100 + BigEndian(b, 88, 4) then status == LengthMismatch
            else if options.validateHeaderCrc
                 && BigEndian(b, 92, 4) != Checksum(b[..92] + [0, 0, 0, 0] + b[96..100]) then
              status == HeaderChecksumMismatch
            else if options.validatePayloadCrc && BigEndian(b, 96, 4) != Checksum(b[100..]) then
              status == PayloadChecksumMismatch
            else status == ValidationFailed
  {
    hide ReadU16, ReadU32, BigEndian, Checksum, HeaderForChecksum, Validate, ParseFields;
    if |b| >= 100 {
      ReadsBigEndian32(b, 0);
      ReadsBigEndian16(b, 4);
      ReadsBigEndian16(b, 6);
      ReadsBigEndian32(b, 88);
      ChecksumsStand(b);
    }
  }
}
