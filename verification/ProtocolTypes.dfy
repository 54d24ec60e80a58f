/** Scalar types, open enumerations and the packet envelope shared by every component.

    The wire enumerations have a fixed underlying integer type and a decoder casts any integer into
    them, so they are modelled as the integer itself with one constant per named value. */
module ProtocolTypes {

  type uint8 = x: int | 0 <= x < 0x100
  type uint16 = x: int | 0 <= x < 0x1_0000
  type uint32 = x: int | 0 <= x < 0x1_0000_0000
  type uint64 = x: int | 0 <= x < 0x1_0000_0000_0000_0000

  type ByteBuffer = seq<uint8>

  function Min(a: nat, b: nat): nat {
    if a <= b then a else b
  }

  function Max(a: nat, b: nat): nat {
    if a <= b then b else a
  }

  /** The binary digit of `n` with weight 2^`place`. */
  predicate DigitOf(n: nat, place: nat) {
    if place == 0 then n % 2 == 1 else DigitOf(n / 2, place - 1)
  }

  ghost predicate Ascending(ids: seq<nat>) {
    forall i, j :: 0 <= i < j < |ids| ==> ids[i] < ids[j]
  }

  const CURRENT_PROTOCOL_MAJOR: uint16 := 1
  const CURRENT_PROTOCOL_MINOR: uint16 := 0

  const FLAG_RESPONSE_REQUIRED: uint32 := 0x01
  const FLAG_NO_RESPONSE_REQUIRED: uint32 := 0x02
  const FLAG_KEY_FRAME: uint32 := 0x10

  /** Every flag the code tests is a single bit, so masking with it is reading that binary digit. */
  predicate HasFlag(flags: uint32, flag: uint32)
    requires flag != 0
  {
    flags / flag % 2 == 1
  }

  const CHANNEL_STANDARD: uint16 := 0
  const CHANNEL_VIDEO: uint16 := 1
  const CHANNEL_AUDIO: uint16 := 2
  const CHANNEL_BULK: uint16 := 3
  const CHANNEL_CONTROL: uint16 := 4
  const CHANNEL_INPUT: uint16 := 5

  const KIND_EVENT: uint16 := 0
  const KIND_REQUEST: uint16 := 1
  const KIND_RESPONSE: uint16 := 2
  const KIND_ACK: uint16 := 3
  const KIND_ERROR: uint16 := 4
  const KIND_PROGRESS: uint16 := 5
  const KIND_STREAM_START: uint16 := 6
  const KIND_STREAM_CHUNK: uint16 := 7
  const KIND_STREAM_END: uint16 := 8
  const KIND_CANCEL: uint16 := 9

  const PRIORITY_CRITICAL: uint8 := 0
  const PRIORITY_REALTIME: uint8 := 1
  const PRIORITY_INTERACTIVE: uint8 := 2
  const PRIORITY_NORMAL: uint8 := 3
  const PRIORITY_BULK: uint8 := 4
  const PRIORITY_BACKGROUND: uint8 := 5

  const STATUS_OK: uint16 := 0
  const STATUS_ACCEPTED: uint16 := 1
  const STATUS_PROGRESS: uint16 := 2
  const STATUS_INVALID_ARGUMENT: uint16 := 100
  const STATUS_DENIED_BY_POLICY: uint16 := 102
  const STATUS_UNSUPPORTED: uint16 := 103
  const STATUS_NOT_FOUND: uint16 := 104
  const STATUS_CONFLICT: uint16 := 105
  const STATUS_TIMEOUT: uint16 := 107
  const STATUS_CANCELLED: uint16 := 108
  const STATUS_TOO_LARGE: uint16 := 109
  const STATUS_BACK_PRESSURE: uint16 := 110
  const STATUS_CHANNEL_UNAVAILABLE: uint16 := 111
  const STATUS_FAILED: uint16 := 200
  const STATUS_INTERNAL_ERROR: uint16 := 201
  const STATUS_PROTOCOL_ERROR: uint16 := 202

  const CHANNEL_ID_USER_AUTH_MAIN: uint16 := 0x0001
  const CHANNEL_ID_SMALL_DATA: uint16 := 0x1001
  const CHANNEL_ID_LARGE_DATA: uint16 := 0x1004
  const CHANNEL_ID_GAMEPAD: uint16 := 0x100a

  const PACKET_CHANNEL_INIT: uint16 := 0x0001
  const PACKET_HEARTBEAT: uint16 := 0x0002
  const PACKET_LOGIN: uint16 := 0x0010
  const PACKET_MOUSE: uint16 := 0x0011
  const PACKET_KEYBOARD: uint16 := 0x0012
  const PACKET_VIDEO: uint16 := 0x0014
  const PACKET_PAYLOAD_ACK: uint16 := 0x0018
  const PACKET_EXCHANGE: uint16 := 0x001a
  const PACKET_CLIPBOARD: uint16 := 0x001b
  const PACKET_FILESYSTEM: uint16 := 0x001d
  const PACKET_PRINTER: uint16 := 0x001e
  const PACKET_FILESYSTEM_IRP: uint16 := 0x0020
  const PACKET_TOUCHSCREEN: uint16 := 0x0023
  const PACKET_GAMEPAD: uint16 := 0x0024
  const PACKET_WATERMARK: uint16 := 0x0025

  datatype ChannelKey = ChannelKey(channelId: uint16, channelType: uint16)

  datatype PacketEnvelope = PacketEnvelope(
    protocolMajor: uint16,
    protocolMinor: uint16,
    sessionId: uint64,
    traceId: uint64,
    messageId: uint64,
    correlationId: uint64,
    responseTo: uint64,
    channelId: uint16,
    channelType: uint16,
    packetType: uint16,
    messageKind: uint16,
    priority: uint8,
    responseStatus: uint16,
    sequence: uint64,
    timestampUsec: uint64,
    timeoutMs: uint32,
    flags: uint32,
    payload: ByteBuffer)
  {
    function Key(): ChannelKey {
      ChannelKey(channelId, channelType)
    }
  }

  datatype Option<+T> = None | Some(value: T)
}
