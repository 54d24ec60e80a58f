/** The semantic checks every decoded packet passes before it is handed on. */
module ProtocolValidator {
  import opened ProtocolTypes

  datatype ValidationOptions = ValidationOptions(
    expectedMajor: uint16,
    minimumMinor: uint16,
    maxPayloadBytes: nat,
    requireSessionId: bool,
    requireKnownChannel: bool)

  datatype Validation = Valid | Invalid(status: uint16)

  function DefaultOptions(maxPayloadBytes: nat): ValidationOptions {
    ValidationOptions(CURRENT_PROTOCOL_MAJOR, 0, maxPayloadBytes, true, true)
  }

  predicate IsKnownChannelType(value: uint16) {
    value <= CHANNEL_INPUT
  }

  predicate IsKnownPacketType(value: uint16) {
    value == PACKET_CHANNEL_INIT || value == PACKET_HEARTBEAT || PACKET_LOGIN <= value <= PACKET_WATERMARK
  }

  predicate IsKnownMessageKind(value: uint16) {
    value <= KIND_CANCEL
  }

  predicate IsKnownPriority(value: uint8) {
    value <= PRIORITY_BACKGROUND
  }

  predicate IsKnownStatus(value: uint16) {
    value <= STATUS_PROGRESS
    || STATUS_INVALID_ARGUMENT <= value <= STATUS_CHANNEL_UNAVAILABLE
    || STATUS_FAILED <= value <= STATUS_PROTOCOL_ERROR
  }

  predicate IsKnownChannelId(value: uint16) {
    value == CHANNEL_ID_USER_AUTH_MAIN || CHANNEL_ID_SMALL_DATA <= value <= CHANNEL_ID_GAMEPAD
  }

  predicate IsRequestLike(kind: uint16) {
    kind == KIND_REQUEST || kind == KIND_CANCEL
  }

  predicate IsResponseLike(kind: uint16) {
    kind == KIND_RESPONSE || kind == KIND_ACK || kind == KIND_ERROR || kind == KIND_PROGRESS
  }

  predicate IsStreamMessage(kind: uint16) {
    kind == KIND_STREAM_START || kind == KIND_STREAM_CHUNK || kind == KIND_STREAM_END
  }

  function Validate(options: ValidationOptions, p: PacketEnvelope): Validation {
    if p.protocolMajor != options.expectedMajor then Invalid(STATUS_UNSUPPORTED)
    else if p.protocolMinor < options.minimumMinor then Invalid(STATUS_UNSUPPORTED)
    else if options.requireSessionId && p.sessionId == 0 then Invalid(STATUS_INVALID_ARGUMENT)
    else if options.requireKnownChannel && !IsKnownChannelId(p.channelId) then Invalid(STATUS_INVALID_ARGUMENT)
    else if !IsKnownChannelType(p.channelType) then Invalid(STATUS_INVALID_ARGUMENT)
    else if !IsKnownPacketType(p.packetType) then Invalid(STATUS_INVALID_ARGUMENT)
    else if !IsKnownMessageKind(p.messageKind) then Invalid(STATUS_INVALID_ARGUMENT)
    else if !IsKnownPriority(p.priority) then Invalid(STATUS_INVALID_ARGUMENT)
    else if !IsKnownStatus(p.responseStatus) then Invalid(STATUS_INVALID_ARGUMENT)
    else if |p.payload| > options.maxPayloadBytes then Invalid(STATUS_TOO_LARGE)
    else if IsRequestLike(p.messageKind) && (p.messageId == 0 || p.correlationId == 0 || p.timeoutMs == 0) then
      Invalid(STATUS_INVALID_ARGUMENT)
    else if p.messageKind == KIND_EVENT && HasFlag(p.flags, FLAG_RESPONSE_REQUIRED)
         && (p.messageId == 0 || p.correlationId == 0 || p.timeoutMs == 0) then Invalid(STATUS_INVALID_ARGUMENT)
    else if IsResponseLike(p.messageKind) && p.responseTo == 0 then Invalid(STATUS_INVALID_ARGUMENT)
    else if IsStreamMessage(p.messageKind) && p.correlationId == 0 then Invalid(STATUS_INVALID_ARGUMENT)
    else if HasFlag(p.flags, FLAG_RESPONSE_REQUIRED) && HasFlag(p.flags, FLAG_NO_RESPONSE_REQUIRED) then
      Invalid(STATUS_INVALID_ARGUMENT)
    else if p.messageKind == KIND_EVENT && !HasFlag(p.flags, FLAG_NO_RESPONSE_REQUIRED)
         && p.responseStatus != STATUS_OK then Invalid(STATUS_INVALID_ARGUMENT)
    else Valid
  }

  // ----- what a valid packet is

  /** The values of the wire enumerations that have a name. */
  predicate NamedValues(p: PacketEnvelope) {
    && p.channelType as int in {0, 1, 2, 3, 4, 5}
    && (p.packetType as int in {0x01, 0x02} || 0x10 <= p.packetType <= 0x25)
    && p.messageKind <= 9
    && p.priority <= 5
    && (p.responseStatus <= 2 || 100 <= p.responseStatus <= 111 || 200 <= p.responseStatus <= 202)
  }

  predicate Answerable(p: PacketEnvelope) {
    p.messageId != 0 && p.correlationId != 0 && p.timeoutMs != 0
  }

  /** What each kind of packet must carry: requests and cancels, and events that want an answer, can be answered;
      responses, acks, errors and progress name what they answer; streams are correlated. */
  predicate CarriesWhatItsKindNeeds(p: PacketEnvelope) {
    var wantsAnswer, wantsNone := p.flags % 2 == 1, p.flags / 2 % 2 == 1;
    && !(wantsAnswer && wantsNone)
    && match p.messageKind
       case 0 => (wantsAnswer ==> Answerable(p)) && (wantsNone || p.responseStatus == 0)
       case 1 => Answerable(p)
       case 2 => p.responseTo != 0
       case 3 => p.responseTo != 0
       case 4 => p.responseTo != 0
       case 5 => p.responseTo != 0
       case 6 => p.correlationId != 0
       case 7 => p.correlationId != 0
       case 8 => p.correlationId != 0
       case 9 => Answerable(p)
       case _ => false
  }

  /** A packet validates exactly when its version, session, channel and size are accepted, every enumeration has a
      named value, and it carries what its kind needs. */
  lemma ValidExactlyWhen(options: ValidationOptions, p: PacketEnvelope)
    ensures Validate(options, p) == Valid <==>
              && p.protocolMajor == options.expectedMajor && p.protocolMinor >= options.minimumMinor
              && (options.requireSessionId ==> p.sessionId != 0)
              && (options.requireKnownChannel ==> p.channelId == 1 || 0x1001 <= p.channelId <= 0x100a)
              && |p.payload| <= options.maxPayloadBytes
              && NamedValues(p) && CarriesWhatItsKindNeeds(p)
  {
  }

  /** A packet is refused as unsupported exactly for its version, as too large only for its size, and as an invalid
      argument otherwise. */
  lemma RefusedBecause(options: ValidationOptions, p: PacketEnvelope)
    requires Validate(options, p) != Valid
    ensures var status := Validate(options, p).status;
            && status in {100, 103, 109}
            && (status == 103 <==> p.protocolMajor != options.expectedMajor || p.protocolMinor < options.minimumMinor)
            && (status == 109 ==> |p.payload| > options.maxPayloadBytes && NamedValues(p))
            && (status == 100 && NamedValues(p) && CarriesWhatItsKindNeeds(p) ==>
                  p.sessionId == 0 || (p.channelId != 1 && !(0x1001 <= p.channelId <= 0x100a)))
  {
  }

  /** What answers a valid request is valid: a response, an error or progress that names it. */
  lemma AnswersAreValid(options: ValidationOptions, request: PacketEnvelope, kind: uint16)
    requires Validate(options, request) == Valid && request.messageKind == KIND_REQUEST
    requires kind == KIND_RESPONSE || kind == KIND_ERROR || kind == KIND_PROGRESS
    ensures Validate(options, request.(messageKind := kind, responseTo := request.messageId)) == Valid
  {
  }
}
