/** The wire frame: a 100-byte big-endian header guarded by its own checksum, then the payload. */
module PacketCodec {
  import opened ProtocolTypes
  import opened ByteIo
  import opened Crc
  import opened ProtocolValidator

  const MAGIC: uint32 := 0x4644_3250
  const HEADER_LENGTH: uint16 := 100

  const OFFSET_MAGIC: nat := 0
  const OFFSET_HEADER_LENGTH: nat := 4
  const OFFSET_MAJOR: nat := 6
  const OFFSET_MINOR: nat := 8
  const OFFSET_CHANNEL_ID: nat := 10
  const OFFSET_CHANNEL_TYPE: nat := 12
  const OFFSET_PACKET_TYPE: nat := 14
  const OFFSET_MESSAGE_KIND: nat := 16
  const OFFSET_PRIORITY: nat := 18
  const OFFSET_STATUS: nat := 20
  const OFFSET_FLAGS: nat := 24
  const OFFSET_SESSION_ID: nat := 28
  const OFFSET_TRACE_ID: nat := 36
  const OFFSET_MESSAGE_ID: nat := 44
  const OFFSET_CORRELATION_ID: nat := 52
  const OFFSET_RESPONSE_TO: nat := 60
  const OFFSET_SEQUENCE: nat := 68
  const OFFSET_TIMESTAMP: nat := 76
  const OFFSET_TIMEOUT: nat := 84
  const OFFSET_PAYLOAD_LENGTH: nat := 88
  const OFFSET_HEADER_CRC: nat := 92
  const OFFSET_PAYLOAD_CRC: nat := 96

  datatype CodecOptions = CodecOptions(maxPayloadBytes: nat, validatePayloadCrc: bool, validateHeaderCrc: bool)

  datatype DecodeStatus =
    | Ok
    | Incomplete
    | InvalidMagic
    | InvalidHeaderLength
    | UnsupportedVersion
    | PayloadTooLarge
    | LengthMismatch
    | HeaderChecksumMismatch
    | PayloadChecksumMismatch
    | ValidationFailed

  datatype DecodeResult = Decoded(packet: PacketEnvelope) | DecodeFailed(status: DecodeStatus)

  datatype FrameInspection = FrameInspection(status: DecodeStatus, frameSize: nat)

  // ----- what the encoder lays out

  function PayloadLengthField(p: PacketEnvelope): uint32 {
    |p.payload| % 0x1_0000_0000
  }

  /** Bytes 0 to 17. */
  function Preamble(p: PacketEnvelope): (b: ByteBuffer)
    ensures |b| == 18
  {
    U32(MAGIC) + U16(HEADER_LENGTH) + U16(p.protocolMajor) + U16(p.protocolMinor) + U16(p.channelId)
    + U16(p.channelType) + U16(p.packetType) + U16(p.messageKind)
  }

  /** Bytes 18 to 27; byte 19 and bytes 22 and 23 are padding. */
  function Qualifiers(p: PacketEnvelope): (b: ByteBuffer)
    ensures |b| == 10
  {
    U8(p.priority) + [0] + U16(p.responseStatus) + [0, 0] + U32(p.flags)
  }

  /** Bytes 28 to 83. */
  function Identity(p: PacketEnvelope): (b: ByteBuffer)
    ensures |b| == 56
  {
    U64(p.sessionId) + U64(p.traceId) + U64(p.messageId) + U64(p.correlationId) + U64(p.responseTo)
    + U64(p.sequence) + U64(p.timestampUsec)
  }

  /** Bytes 84 to 91. */
  function Sizes(p: PacketEnvelope): (b: ByteBuffer)
    ensures |b| == 8
  {
    U32(p.timeoutMs) + U32(PayloadLengthField(p))
  }

  /** Bytes 0 to 91: everything the two checksums are computed from or stand beside. */
  function Fields(p: PacketEnvelope): (b: ByteBuffer)
    ensures |b| == OFFSET_HEADER_CRC
  {
    Preamble(p) + Qualifiers(p) + Identity(p) + Sizes(p)
  }

  function Header(p: PacketEnvelope, headerCrc: uint32): (b: ByteBuffer)
    ensures |b| == 100
  {
    Fields(p) + U32(headerCrc) + U32(Checksum(p.payload))
  }

  /** The frame of `p`: the header checksum is taken over the header with its own field zero. */
  function Frame(p: PacketEnvelope): ByteBuffer {
    Header(p, Checksum(Header(p, 0))) + p.payload
  }

  function HeaderForChecksum(header: ByteBuffer): (b: ByteBuffer)
    requires |header| >= 100
    ensures |b| == |header|
    ensures forall i :: 0 <= i < |b| ==> b[i] == if OFFSET_HEADER_CRC <= i < OFFSET_PAYLOAD_CRC then 0 else header[i]
  {
    Splice(header, OFFSET_HEADER_CRC, [0, 0, 0, 0])
  }

  // ----- encode

  function Zeros(n: nat): (z: ByteBuffer)
    ensures |z| == n && forall i :: 0 <= i < n ==> z[i] == 0
  {
    seq(n, i => 0)
  }

  /** A buffer filled up to `written`, still zero from there on. */
  ghost predicate Filled(bytes: array<uint8>, written: ByteBuffer)
    reads bytes
  {
    |written| <= bytes.Length && bytes[..] == written + Zeros(bytes.Length - |written|)
  }

  lemma FilledGrows(before: ByteBuffer, after: ByteBuffer, written: ByteBuffer, field: ByteBuffer)
    requires |written| + |field| <= |before|
    requires before == written + Zeros(|before| - |written|)
    requires after == Splice(before, |written|, field)
    ensures after == (written + field) + Zeros(|after| - |written| - |field|)
  {
  }

  method PutU8(bytes: array<uint8>, offset: nat, value: uint8, ghost written: ByteBuffer)
    requires |written| == offset && offset + 1 <= bytes.Length && Filled(bytes, written)
    modifies bytes
    ensures Filled(bytes, written + U8(value))
  {
    var _ := WriteU8At(bytes, offset, value);
    FilledGrows(old(bytes[..]), bytes[..], written, U8(value));
  }

  method PutU16(bytes: array<uint8>, offset: nat, value: uint16, ghost written: ByteBuffer)
    requires |written| == offset && offset + 2 <= bytes.Length && Filled(bytes, written)
    modifies bytes
    ensures Filled(bytes, written + U16(value))
  {
    var _ := WriteU16At(bytes, offset, value);
    FilledGrows(old(bytes[..]), bytes[..], written, U16(value));
  }

  method PutU32(bytes: array<uint8>, offset: nat, value: uint32, ghost written: ByteBuffer)
    requires |written| == offset && offset + 4 <= bytes.Length && Filled(bytes, written)
    modifies bytes
    ensures Filled(bytes, written + U32(value))
  {
    var _ := WriteU32At(bytes, offset, value);
    FilledGrows(old(bytes[..]), bytes[..], written, U32(value));
  }

  method PutU64(bytes: array<uint8>, offset: nat, value: uint64, ghost written: ByteBuffer)
    requires |written| == offset && offset + 8 <= bytes.Length && Filled(bytes, written)
    modifies bytes
    ensures Filled(bytes, written + U64(value))
  {
    var _ := WriteU64At(bytes, offset, value);
    FilledGrows(old(bytes[..]), bytes[..], written, U64(value));
  }

  method WritePreamble(bytes: array<uint8>, p: PacketEnvelope)
    requires bytes.Length >= 100 && Filled(bytes, [])
    modifies bytes
    ensures Filled(bytes, Preamble(p))
  {
    ghost var w := [];
    PutU32(bytes, OFFSET_MAGIC, MAGIC, w);
    w := U32(MAGIC);
    assert [] + U32(MAGIC) == w;
    PutU16(bytes, OFFSET_HEADER_LENGTH, HEADER_LENGTH, w);
    w := w + U16(HEADER_LENGTH);
    PutU16(bytes, OFFSET_MAJOR, p.protocolMajor, w);
    w := w + U16(p.protocolMajor);
    PutU16(bytes, OFFSET_MINOR, p.protocolMinor, w);
    w := w + U16(p.protocolMinor);
    PutU16(bytes, OFFSET_CHANNEL_ID, p.channelId, w);
    w := w + U16(p.channelId);
    PutU16(bytes, OFFSET_CHANNEL_TYPE, p.channelType, w);
    w := w + U16(p.channelType);
    PutU16(bytes, OFFSET_PACKET_TYPE, p.packetType, w);
    w := w + U16(p.packetType);
    PutU16(bytes, OFFSET_MESSAGE_KIND, p.messageKind, w);
  }

  lemma FilledPads(bytes: array<uint8>, written: ByteBuffer, padding: nat)
    requires Filled(bytes, written) && |written| + padding <= bytes.Length
    ensures Filled(bytes, written + Zeros(padding))
  {
    var n := bytes.Length - |written|;
    assert Zeros(n) == Zeros(padding) + Zeros(n - padding);
    assert written + Zeros(n) == (written + Zeros(padding)) + Zeros(n - padding);
  }

  method WriteQualifiers(bytes: array<uint8>, p: PacketEnvelope, ghost before: ByteBuffer)
    requires bytes.Length >= 100 && |before| == OFFSET_PRIORITY && Filled(bytes, before)
    modifies bytes
    ensures Filled(bytes, before + Qualifiers(p))
  {
    PutU8(bytes, OFFSET_PRIORITY, p.priority, before);
    ghost var w := before + U8(p.priority);
    FilledPads(bytes, w, 1);
    w := w + Zeros(1);
    PutU16(bytes, OFFSET_STATUS, p.responseStatus, w);
    w := w + U16(p.responseStatus);
    FilledPads(bytes, w, 2);
    w := w + Zeros(2);
    PutU32(bytes, OFFSET_FLAGS, p.flags, w);
    w := w + U32(p.flags);
    assert w == before + Qualifiers(p);
  }

  method WriteIdentity(bytes: array<uint8>, p: PacketEnvelope, ghost before: ByteBuffer)
    requires bytes.Length >= 100 && |before| == OFFSET_SESSION_ID && Filled(bytes, before)
    modifies bytes
    ensures Filled(bytes, before + Identity(p))
  {
    hide U64, Filled;
    PutU64(bytes, OFFSET_SESSION_ID, p.sessionId, before);
    ghost var w := before + U64(p.sessionId);
    PutU64(bytes, OFFSET_TRACE_ID, p.traceId, w);
    w := w + U64(p.traceId);
    PutU64(bytes, OFFSET_MESSAGE_ID, p.messageId, w);
    w := w + U64(p.messageId);
    PutU64(bytes, OFFSET_CORRELATION_ID, p.correlationId, w);
    w := w + U64(p.correlationId);
    PutU64(bytes, OFFSET_RESPONSE_TO, p.responseTo, w);
    w := w + U64(p.responseTo);
    PutU64(bytes, OFFSET_SEQUENCE, p.sequence, w);
    w := w + U64(p.sequence);
    PutU64(bytes, OFFSET_TIMESTAMP, p.timestampUsec, w);
    w := w + U64(p.timestampUsec);
    assert w == before + Identity(p);
  }

  method WriteSizes(bytes: array<uint8>, p: PacketEnvelope, ghost before: ByteBuffer)
    requires bytes.Length >= 100 && |before| == OFFSET_TIMEOUT && Filled(bytes, before)
    modifies bytes
    ensures Filled(bytes, before + Sizes(p))
  {
    PutU32(bytes, OFFSET_TIMEOUT, p.timeoutMs, before);
    ghost var w := before + U32(p.timeoutMs);
    PutU32(bytes, OFFSET_PAYLOAD_LENGTH, |p.payload| % 0x1_0000_0000, w);
    assert w + U32(PayloadLengthField(p)) == before + Sizes(p);
  }

  method WriteFields(bytes: array<uint8>, p: PacketEnvelope)
    requires bytes.Length == 100 + |p.payload| && Filled(bytes, [])
    modifies bytes
    ensures bytes[..] == Fields(p) + Zeros(8) + Zeros(|p.payload|)
  {
    WritePreamble(bytes, p);
    WriteQualifiers(bytes, p, Preamble(p));
    WriteIdentity(bytes, p, Preamble(p) + Qualifiers(p));
    WriteSizes(bytes, p, Preamble(p) + Qualifiers(p) + Identity(p));
    assert Zeros(8 + |p.payload|) == Zeros(8) + Zeros(|p.payload|);
  }

  method CopyPayload(bytes: array<uint8>, payload: ByteBuffer)
    requires bytes.Length == 100 + |payload|
    modifies bytes
    ensures bytes[..] == old(bytes[..100]) + payload
  {
    for i := 0 to |payload|
      invariant bytes[..100 + i] == old(bytes[..100]) + payload[..i]
    {
      bytes[100 + i] := payload[i];
    }
  }

  /** The payload checksum is written first, because the header checksum covers it. */
  method WriteChecksums(bytes: array<uint8>, p: PacketEnvelope)
    requires bytes[..] == Fields(p) + Zeros(8) + p.payload
    modifies bytes
    ensures bytes[..] == Frame(p)
  {
    hide Checksum, Fields;
    var payloadCrc := Crc32(p.payload);
    var _ := WriteU32At(bytes, OFFSET_PAYLOAD_CRC, payloadCrc);
    assert bytes[..] == Fields(p) + Zeros(4) + U32(payloadCrc) + p.payload;
    var header := bytes[..100];
    assert header == Fields(p) + Zeros(4) + U32(payloadCrc);
    assert U32(0) == [0, 0, 0, 0] == Zeros(4);
    assert HeaderForChecksum(header) == Header(p, 0);
    var headerCrc := Crc32(HeaderForChecksum(header));
    var _ := WriteU32At(bytes, OFFSET_HEADER_CRC, headerCrc);
  }

  method Encode(p: PacketEnvelope) returns (bytes: array<uint8>)
    ensures fresh(bytes) && bytes[..] == Frame(p)
  {
    bytes := new uint8[100 + |p.payload|](i => 0);
    assert bytes[..] == [] + Zeros(bytes.Length);
    WriteFields(bytes, p);
    assert bytes[..100] == Fields(p) + Zeros(8);
    CopyPayload(bytes, p.payload);
    WriteChecksums(bytes, p);
  }

  // ----- inspect and decode

  /** The checks shared by both readers: Ok when the header announces a payload the codec accepts. */
  function CheckHeader(options: CodecOptions, bytes: ByteBuffer): DecodeStatus {
    if |bytes| < HEADER_LENGTH then Incomplete
    else if ReadU32(bytes, OFFSET_MAGIC) != MAGIC then InvalidMagic
    else if ReadU16(bytes, OFFSET_HEADER_LENGTH) != HEADER_LENGTH then InvalidHeaderLength
    else if ReadU16(bytes, OFFSET_MAJOR) != CURRENT_PROTOCOL_MAJOR then UnsupportedVersion
    else if ReadU32(bytes, OFFSET_PAYLOAD_LENGTH) > options.maxPayloadBytes then PayloadTooLarge
    else Ok
  }

  function InspectFrame(options: CodecOptions, bytes: ByteBuffer): FrameInspection {
    var check := CheckHeader(options, bytes);
    if check != Ok then FrameInspection(check, 0)
    else
      var frameSize := 100 + ReadU32(bytes, OFFSET_PAYLOAD_LENGTH);
      FrameInspection(if |bytes| >= frameSize then Ok else Incomplete, frameSize)
  }

  /** The envelope whose fields stand at their offsets in `bytes`. */
  function ParseFields(bytes: ByteBuffer): PacketEnvelope
    requires |bytes| >= 100
  {
    PacketEnvelope(
      ReadU16(bytes, OFFSET_MAJOR),
      ReadU16(bytes, OFFSET_MINOR),
      ReadU64(bytes, OFFSET_SESSION_ID),
      ReadU64(bytes, OFFSET_TRACE_ID),
      ReadU64(bytes, OFFSET_MESSAGE_ID),
      ReadU64(bytes, OFFSET_CORRELATION_ID),
      ReadU64(bytes, OFFSET_RESPONSE_TO),
      ReadU16(bytes, OFFSET_CHANNEL_ID),
      ReadU16(bytes, OFFSET_CHANNEL_TYPE),
      ReadU16(bytes, OFFSET_PACKET_TYPE),
      ReadU16(bytes, OFFSET_MESSAGE_KIND),
      ReadU8(bytes, OFFSET_PRIORITY),
      ReadU16(bytes, OFFSET_STATUS),
      ReadU64(bytes, OFFSET_SEQUENCE),
      ReadU64(bytes, OFFSET_TIMESTAMP),
      ReadU32(bytes, OFFSET_TIMEOUT),
      ReadU32(bytes, OFFSET_FLAGS),
      bytes[100..])
  }

  function Decode(options: CodecOptions, bytes: ByteBuffer): DecodeResult {
    var check := CheckHeader(options, bytes);
    if check != Ok then DecodeFailed(check)
    else if |bytes| != 100 + ReadU32(bytes, OFFSET_PAYLOAD_LENGTH) then DecodeFailed(LengthMismatch)
    else if options.validateHeaderCrc
         && Checksum(HeaderForChecksum(bytes[..100])) != ReadU32(bytes[..100], OFFSET_HEADER_CRC) then
      DecodeFailed(HeaderChecksumMismatch)
    else if options.validatePayloadCrc
         && Checksum(bytes[100..]) != ReadU32(bytes, OFFSET_PAYLOAD_CRC) then
      DecodeFailed(PayloadChecksumMismatch)
    else
      var packet := ParseFields(bytes);
      if Validate(DefaultOptions(options.maxPayloadBytes), packet) != Valid then DecodeFailed(ValidationFailed)
      else Decoded(packet)
  }
}
