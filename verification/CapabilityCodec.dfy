/** The capability payload: a 46-byte big-endian record followed by three counted lists. */
module CapabilityCodec {
  import opened ProtocolTypes
  import opened ByteIo
  import opened CapabilityNegotiation

  const PAYLOAD_MAGIC: uint32 := 0x4644_3243
  const PAYLOAD_VERSION: uint16 := 1
  const MINIMUM_PAYLOAD_SIZE: nat := 52
  const RECORD_SIZE: nat := 46

  datatype PayloadOptions = PayloadOptions(maxPayloadBytes: nat, maxListItems: nat)

  datatype CapabilityDecodeStatus = Incomplete | InvalidMagic | UnsupportedVersion | TooLarge | Malformed

  datatype CapabilityDecodeResult = Capabilities(value: ProtocolCapabilities) | Rejected(status: CapabilityDecodeStatus)

  // ----- layout

  function Preface(c: ProtocolCapabilities): (b: ByteBuffer)
    ensures |b| == 20
  {
    U32(PAYLOAD_MAGIC) + U16(PAYLOAD_VERSION) + U16(c.protocolMajor) + U16(c.protocolMinor)
    + U16(if c.directTunnel then 1 else 0) + U64(c.features)
  }

  function LimitFields(l: ProtocolLimits): (b: ByteBuffer)
    ensures |b| == 26
  {
    U32(l.maxPayloadBytes) + U32(l.maxStreamChunkBytes) + U32(l.minRequestTimeoutMs)
    + U32(l.defaultRequestTimeoutMs) + U32(l.maxRequestTimeoutMs) + U16(l.maxChannels) + U32(l.maxPendingRequests)
  }

  function Items(values: seq<uint16>): (b: ByteBuffer)
    ensures |b| == 2 * |values|
  {
    if values == [] then [] else Items(values[..|values| - 1]) + U16(values[|values| - 1])
  }

  function EnumList(values: seq<uint16>): ByteBuffer {
    U16(|values| % 0x1_0000) + Items(values)
  }

  function Payload(c: ProtocolCapabilities): ByteBuffer {
    Preface(c) + LimitFields(c.limits) + EnumList(c.channelTypes) + EnumList(c.packetTypes) + EnumList(c.messageKinds)
  }

  method WriteEnumList(bytes: ByteBuffer, values: seq<uint16>) returns (extended: ByteBuffer)
    ensures extended == bytes + EnumList(values)
  {
    extended := bytes + U16(|values| % 0x1_0000);
    for i := 0 to |values|
      invariant extended == bytes + U16(|values| % 0x1_0000) + Items(values[..i])
    {
      assert values[..i + 1][..i] == values[..i];
      extended := extended + U16(values[i]);
    }
    assert values[..|values|] == values;
  }

  method Encode(c: ProtocolCapabilities) returns (bytes: ByteBuffer)
    ensures bytes == Payload(c)
  {
    bytes := Preface(c) + LimitFields(c.limits);
    bytes := WriteEnumList(bytes, c.channelTypes);
    bytes := WriteEnumList(bytes, c.packetTypes);
    bytes := WriteEnumList(bytes, c.messageKinds);
  }

  // ----- parsing

  // These readers do not look at the length of the buffer, so every use of one has to show that it stays inside.

  function FieldU16(bytes: ByteBuffer, offset: nat): (r: uint16)
    requires offset + 2 <= |bytes|
    ensures r == ReadU16(bytes, offset)
  {
    (bytes[offset] as int) * 0x100 + bytes[offset + 1]
  }

  function FieldU32(bytes: ByteBuffer, offset: nat): (r: uint32)
    requires offset + 4 <= |bytes|
    ensures r == ReadU32(bytes, offset)
  {
    FieldU16(bytes, offset) * 0x1_0000 + FieldU16(bytes, offset + 2)
  }

  function FieldU64(bytes: ByteBuffer, offset: nat): (r: uint64)
    requires offset + 8 <= |bytes|
    ensures r == ReadU64(bytes, offset)
  {
    FieldU32(bytes, offset) * 0x1_0000_0000 + FieldU32(bytes, offset + 4)
  }

  function ParseItems(bytes: ByteBuffer, offset: nat, count: nat): (values: seq<uint16>)
    requires offset + 2 * count <= |bytes|
    ensures |values| == count
  {
    if count == 0 then [] else ParseItems(bytes, offset, count - 1) + [FieldU16(bytes, offset + 2 * (count - 1))]
  }

  /** The list at `offset` and the offset behind it. */
  function ParseList(bytes: ByteBuffer, maxItems: nat, offset: nat): Option<(seq<uint16>, nat)> {
    if offset + 2 > |bytes| then None
    else
      var count := FieldU16(bytes, offset);
      if count > maxItems || (|bytes| - offset - 2) / 2 < count then None
      else Some((ParseItems(bytes, offset + 2, count), offset + 2 + 2 * count))
  }

  method ReadEnumList(bytes: ByteBuffer, maxItems: nat, offset: nat) returns (list: Option<(seq<uint16>, nat)>)
    ensures list == ParseList(bytes, maxItems, offset)
  {
    if offset > |bytes| || |bytes| - offset < 2 {
      return None;
    }
    var count := FieldU16(bytes, offset);
    if count > maxItems || (|bytes| - offset - 2) / 2 < count {
      return None;
    }
    var values, next := [], offset + 2;
    for i := 0 to count
      invariant values == ParseItems(bytes, offset + 2, i) && next == offset + 2 + 2 * i
    {
      values := values + [FieldU16(bytes, next)];
      next := next + 2;
    }
    return Some((values, next));
  }

  function ParseRecord(bytes: ByteBuffer): ProtocolCapabilities
    requires |bytes| >= RECORD_SIZE
  {
    ProtocolCapabilities(
      FieldU16(bytes, 6), FieldU16(bytes, 8), FieldU64(bytes, 12), [], [], [],
      ProtocolLimits(FieldU32(bytes, 20), FieldU32(bytes, 24), FieldU32(bytes, 28), FieldU32(bytes, 32),
                     FieldU32(bytes, 36), FieldU16(bytes, 40), FieldU32(bytes, 42)),
      FieldU16(bytes, 10) % 2 == 1)
  }

  function ParseLists(options: PayloadOptions, bytes: ByteBuffer): Option<(seq<uint16>, seq<uint16>, seq<uint16>)> {
    match ParseList(bytes, options.maxListItems, RECORD_SIZE)
    case None => None
    case Some((channelTypes, second)) =>
      match ParseList(bytes, options.maxListItems, second)
      case None => None
      case Some((packetTypes, third)) =>
        match ParseList(bytes, options.maxListItems, third)
        case None => None
        case Some((messageKinds, end)) =>
          if end != |bytes| then None else Some((channelTypes, packetTypes, messageKinds))
  }

  function Decode(options: PayloadOptions, bytes: ByteBuffer): CapabilityDecodeResult {
    if |bytes| > options.maxPayloadBytes then Rejected(TooLarge)
    else if |bytes| < MINIMUM_PAYLOAD_SIZE then Rejected(Incomplete)
    else if FieldU32(bytes, 0) != PAYLOAD_MAGIC then Rejected(InvalidMagic)
    else if FieldU16(bytes, 4) != PAYLOAD_VERSION then Rejected(UnsupportedVersion)
    else
      match ParseLists(options, bytes)
      case None => Rejected(Malformed)
      case Some((channelTypes, packetTypes, messageKinds)) =>
        Capabilities(ParseRecord(bytes).(channelTypes := channelTypes, packetTypes := packetTypes,
                                         messageKinds := messageKinds))
  }

  method DecodePayload(options: PayloadOptions, bytes: ByteBuffer) returns (result: CapabilityDecodeResult)
    ensures result == Decode(options, bytes)
  {
    hide ParseList;
    if |bytes| > options.maxPayloadBytes {
      return Rejected(TooLarge);
    }
    if |bytes| < MINIMUM_PAYLOAD_SIZE {
      return Rejected(Incomplete);
    }
    if FieldU32(bytes, 0) != PAYLOAD_MAGIC {
      return Rejected(InvalidMagic);
    }
    if FieldU16(bytes, 4) != PAYLOAD_VERSION {
      return Rejected(UnsupportedVersion);
    }
    var capabilities, offset := ParseRecord(bytes), RECORD_SIZE;
    var list := ReadEnumList(bytes, options.maxListItems, offset);
    if list.None? {
      return Rejected(Malformed);
    }
    capabilities, offset := capabilities.(channelTypes := list.value.0), list.value.1;
    list := ReadEnumList(bytes, options.maxListItems, offset);
    if list.None? {
      return Rejected(Malformed);
    }
    capabilities, offset := capabilities.(packetTypes := list.value.0), list.value.1;
    list := ReadEnumList(bytes, options.maxListItems, offset);
    if list.None? || list.value.1 != |bytes| {
      return Rejected(Malformed);
    }
    return Capabilities(capabilities.(messageKinds := list.value.0));
  }

  // ----- lists round trip

  lemma {:induction false} ItemsReadBack(bytes: ByteBuffer, offset: nat, values: seq<uint16>)
    requires offset + 2 * |values| <= |bytes| && bytes[offset..offset + 2 * |values|] == Items(values)
    ensures ParseItems(bytes, offset, |values|) == values
  {
    if values != [] {
      var n := |values| - 1;
      var all := Items(values);
      assert bytes[offset..offset + 2 * n] == all[..2 * n] == Items(values[..n]);
      assert bytes[offset + 2 * n..offset + 2 * n + 2] == all[2 * n..] == U16(values[n]);
      ItemsReadBack(bytes, offset, values[..n]);
      ReadsU16(bytes, offset + 2 * n, values[n]);
    }
  }

  lemma {:induction false} ItemsOfParsed(bytes: ByteBuffer, offset: nat, count: nat)
    requires offset + 2 * count <= |bytes|
    ensures Items(ParseItems(bytes, offset, count)) == bytes[offset..offset + 2 * count]
  {
    hide ReadU16, U16, FieldU16;
    if count > 0 {
      var values, init := ParseItems(bytes, offset, count), ParseItems(bytes, offset, count - 1);
      var last := offset + 2 * (count - 1);
      ItemsOfParsed(bytes, offset, count - 1);
      U16OfRead(bytes, last);
      assert values == init + [FieldU16(bytes, last)] && values[..count - 1] == init;
      assert Items(values) == Items(init) + U16(FieldU16(bytes, last));
      assert bytes[offset..last + 2] == bytes[offset..last] + bytes[last..last + 2];
    }
  }

  ghost predicate ListFits(values: seq<uint16>, maxItems: nat) {
    |values| <= maxItems && |values| < 0x1_0000
  }

  lemma ListReadsBack(pre: ByteBuffer, values: seq<uint16>, post: ByteBuffer, maxItems: nat)
    requires ListFits(values, maxItems)
    ensures ParseList(pre + EnumList(values) + post, maxItems, |pre|) == Some((values, |pre| + |EnumList(values)|))
  {
    var bytes, o := pre + EnumList(values) + post, |pre|;
    assert bytes[o..o + 2] == U16(|values|);
    ReadsU16(bytes, o, |values|);
    assert bytes[o + 2..o + 2 + 2 * |values|] == Items(values);
    ItemsReadBack(bytes, o + 2, values);
  }

  lemma ListOfParsed(bytes: ByteBuffer, maxItems: nat, offset: nat)
    requires ParseList(bytes, maxItems, offset).Some?
    ensures var (values, next) := ParseList(bytes, maxItems, offset).value;
            ListFits(values, maxItems) && offset <= next <= |bytes| && EnumList(values) == bytes[offset..next]
  {
    hide U16, ParseItems, Items, ReadU16;
    var count: nat := ReadU16(bytes, offset);
    U16OfRead(bytes, offset);
    ItemsOfParsed(bytes, offset + 2, count);
    assert bytes[offset..offset + 2 + 2 * count]
           == bytes[offset..offset + 2] + bytes[offset + 2..offset + 2 + 2 * count];
  }

  // ----- the record round trips

  lemma PrefaceReadsBack(bytes: ByteBuffer, c: ProtocolCapabilities)
    requires |bytes| >= 46 && bytes[0..20] == Preface(c)
    ensures ReadU32(bytes, 0) == PAYLOAD_MAGIC && ReadU16(bytes, 4) == PAYLOAD_VERSION
    ensures ReadU16(bytes, 6) == c.protocolMajor && ReadU16(bytes, 8) == c.protocolMinor
    ensures ReadU16(bytes, 10) == (if c.directTunnel then 1 else 0) && ReadU64(bytes, 12) == c.features
  {
    var g := Preface(c);
    assert bytes[0..4] == g[0..4] == U32(PAYLOAD_MAGIC);
    assert bytes[4..6] == g[4..6] == U16(PAYLOAD_VERSION);
    assert bytes[6..8] == g[6..8] == U16(c.protocolMajor);
    assert bytes[8..10] == g[8..10] == U16(c.protocolMinor);
    assert bytes[10..12] == g[10..12] == U16(if c.directTunnel then 1 else 0);
    assert bytes[12..20] == g[12..20] == U64(c.features);
    ReadsU32(bytes, 0, PAYLOAD_MAGIC);
    ReadsU16(bytes, 4, PAYLOAD_VERSION);
    ReadsU16(bytes, 6, c.protocolMajor);
    ReadsU16(bytes, 8, c.protocolMinor);
    ReadsU16(bytes, 10, if c.directTunnel then 1 else 0);
    ReadsU64(bytes, 12, c.features);
  }

  lemma LimitsReadBack(bytes: ByteBuffer, l: ProtocolLimits)
    requires |bytes| >= 46 && bytes[20..46] == LimitFields(l)
    ensures ParseRecord(bytes).limits == l
  {
    var g := LimitFields(l);
    assert forall i :: 0 <= i < 26 ==> bytes[20 + i] == bytes[20..46][i];
    assert bytes[20..24] == g[0..4] == U32(l.maxPayloadBytes);
    assert bytes[24..28] == g[4..8] == U32(l.maxStreamChunkBytes);
    assert bytes[28..32] == g[8..12] == U32(l.minRequestTimeoutMs);
    assert bytes[32..36] == g[12..16] == U32(l.defaultRequestTimeoutMs);
    assert bytes[36..40] == g[16..20] == U32(l.maxRequestTimeoutMs);
    assert bytes[40..42] == g[20..22] == U16(l.maxChannels);
    assert bytes[42..46] == g[22..26] == U32(l.maxPendingRequests);
    ReadsU32(bytes, 20, l.maxPayloadBytes);
    ReadsU32(bytes, 24, l.maxStreamChunkBytes);
    ReadsU32(bytes, 28, l.minRequestTimeoutMs);
    ReadsU32(bytes, 32, l.defaultRequestTimeoutMs);
    ReadsU32(bytes, 36, l.maxRequestTimeoutMs);
    ReadsU16(bytes, 40, l.maxChannels);
    ReadsU32(bytes, 42, l.maxPendingRequests);
  }

  lemma LimitsOfParsed(bytes: ByteBuffer)
    requires |bytes| >= 46
    ensures LimitFields(ParseRecord(bytes).limits) == bytes[20..46]
  {
    hide U32, U16, ReadU32, ReadU16;
    U32OfRead(bytes, 20);
    U32OfRead(bytes, 24);
    U32OfRead(bytes, 28);
    U32OfRead(bytes, 32);
    U32OfRead(bytes, 36);
    U16OfRead(bytes, 40);
    U32OfRead(bytes, 42);
    assert bytes[20..46] == bytes[20..24] + bytes[24..28] + bytes[28..32] + bytes[32..36] + bytes[36..40]
                            + bytes[40..42] + bytes[42..46];
  }

  lemma PrefaceOfParsed(bytes: ByteBuffer)
    requires |bytes| >= 46 && ReadU32(bytes, 0) == PAYLOAD_MAGIC && ReadU16(bytes, 4) == PAYLOAD_VERSION
    ensures Preface(ParseRecord(bytes)) == bytes[0..20] <==> ReadU16(bytes, 10) <= 1
  {
    U32OfRead(bytes, 0);
    U16OfRead(bytes, 4);
    U16OfRead(bytes, 6);
    U16OfRead(bytes, 8);
    U16OfRead(bytes, 10);
    U64OfRead(bytes, 12);
    var flags := ReadU16(bytes, 10);
    var read := if flags % 2 == 1 then 1 else 0;
    assert flags <= 1 <==> flags == read;
    hide U32, U16, U64, ReadU32, ReadU16, ReadU64;
    assert bytes[0..20] == bytes[0..4] + bytes[4..6] + bytes[6..8] + bytes[8..10] + bytes[10..12] + bytes[12..20];
    if Preface(ParseRecord(bytes)) == bytes[0..20] {
      PrefaceReadsBack(bytes, ParseRecord(bytes));
    }
  }

  // ----- the codec

  ghost predicate Fits(options: PayloadOptions, c: ProtocolCapabilities) {
    && ListFits(c.channelTypes, options.maxListItems)
    && ListFits(c.packetTypes, options.maxListItems)
    && ListFits(c.messageKinds, options.maxListItems)
    && |Payload(c)| <= options.maxPayloadBytes
  }

  lemma ListsReadBack(options: PayloadOptions, c: ProtocolCapabilities)
    requires Fits(options, c)
    ensures ParseLists(options, Payload(c)) == Some((c.channelTypes, c.packetTypes, c.messageKinds))
  {
    hide Preface, LimitFields, EnumList, ParseList;
    var record := Preface(c) + LimitFields(c.limits);
    var a, b, d := EnumList(c.channelTypes), EnumList(c.packetTypes), EnumList(c.messageKinds);
    assert Payload(c) == record + a + (b + d) == (record + a) + b + d == (record + a + b) + d + [];
    ListReadsBack(record, c.channelTypes, b + d, options.maxListItems);
    ListReadsBack(record + a, c.packetTypes, d, options.maxListItems);
    ListReadsBack(record + a + b, c.messageKinds, [], options.maxListItems);
  }

  /** Decoding undoes encoding for exactly the values whose lists and total size fit the decoder. */
  lemma DecodeEncode(options: PayloadOptions, c: ProtocolCapabilities)
    ensures Decode(options, Payload(c)) == Capabilities(c) <==> Fits(options, c)
  {
    hide FieldU16, FieldU32, FieldU64, ReadU16, ReadU32, ReadU64, ParseLists, Items;
    var bytes := Payload(c);
    if Fits(options, c) {
      assert bytes[0..20] == Preface(c) && bytes[20..46] == LimitFields(c.limits);
      PrefaceReadsBack(bytes, c);
      LimitsReadBack(bytes, c.limits);
      ListsReadBack(options, c);
    } else if Decode(options, bytes) == Capabilities(c) {
      ParsedListsFit(options, bytes);
    }
  }

  lemma ParsedListsFit(options: PayloadOptions, bytes: ByteBuffer)
    requires ParseLists(options, bytes).Some? && |bytes| >= RECORD_SIZE
    ensures var (a, b, c) := ParseLists(options, bytes).value;
            && ListFits(a, options.maxListItems) && ListFits(b, options.maxListItems)
              && ListFits(c, options.maxListItems)
            && bytes[RECORD_SIZE..] == EnumList(a) + EnumList(b) + EnumList(c)
  {
    hide ParseList, EnumList;
    ListOfParsed(bytes, options.maxListItems, RECORD_SIZE);
    var second := ParseList(bytes, options.maxListItems, RECORD_SIZE).value.1;
    ListOfParsed(bytes, options.maxListItems, second);
    var third := ParseList(bytes, options.maxListItems, second).value.1;
    ListOfParsed(bytes, options.maxListItems, third);
    assert bytes[RECORD_SIZE..] == bytes[RECORD_SIZE..second] + bytes[second..third] + bytes[third..];
  }

  /** Every accepted payload re-encodes to itself exactly when its unused flag bits are zero. */
  lemma EncodeDecode(options: PayloadOptions, bytes: ByteBuffer)
    requires Decode(options, bytes).Capabilities?
    ensures Payload(Decode(options, bytes).value) == bytes <==> ReadU16(bytes, 10) <= 1
  {
    hide ParseList, EnumList, ParseLists;
    var c := Decode(options, bytes).value;
    ParsedListsFit(options, bytes);
    LimitsOfParsed(bytes);
    PrefaceOfParsed(bytes);
    hide ParseRecord, LimitFields;
    assert Preface(c) == Preface(ParseRecord(bytes)) && LimitFields(c.limits) == bytes[20..46];
    hide Preface;
    assert bytes == bytes[0..20] + bytes[20..46] + bytes[46..];
    assert Payload(c)[0..20] == Preface(c);
  }

  // ----- the layout

  /** Where every field stands in the record, and what follows it. */
  lemma RecordLayout(c: ProtocolCapabilities)
    ensures var b, l := Payload(c), c.limits;
            && |b| == 52 + 2 * (|c.channelTypes| + |c.packetTypes| + |c.messageKinds|)
            && BigEndian(b, 0, 4) == 0x46443243 && BigEndian(b, 4, 2) == 1
            && BigEndian(b, 6, 2) == c.protocolMajor && BigEndian(b, 8, 2) == c.protocolMinor
            && BigEndian(b, 10, 2) == (if c.directTunnel then 1 else 0) && BigEndian(b, 12, 8) == c.features
    ensures var b, l := Payload(c), c.limits;
            && BigEndian(b, 20, 4) == l.maxPayloadBytes && BigEndian(b, 24, 4) == l.maxStreamChunkBytes
            && BigEndian(b, 28, 4) == l.minRequestTimeoutMs && BigEndian(b, 32, 4) == l.defaultRequestTimeoutMs
            && BigEndian(b, 36, 4) == l.maxRequestTimeoutMs && BigEndian(b, 40, 2) == l.maxChannels
            && BigEndian(b, 42, 4) == l.maxPendingRequests
    ensures Payload(c)[46..] == EnumList(c.channelTypes) + EnumList(c.packetTypes) + EnumList(c.messageKinds)
  {
    hide U16, U32, U64, ReadU16, ReadU32, ReadU64, BigEndian, Items, FieldU16, FieldU32, FieldU64;
    var b := Payload(c);
    assert b[0..20] == Preface(c) && b[20..46] == LimitFields(c.limits);
    PrefaceReadsBack(b, c);
    LimitsReadBack(b, c.limits);
    PrefaceBigEndian(b);
    LimitsBigEndian(b);
  }

  lemma PrefaceBigEndian(b: ByteBuffer)
    requires |b| >= 46
    ensures BigEndian(b, 0, 4) == ReadU32(b, 0) && BigEndian(b, 4, 2) == ReadU16(b, 4)
    ensures BigEndian(b, 6, 2) == ReadU16(b, 6) && BigEndian(b, 8, 2) == ReadU16(b, 8)
    ensures BigEndian(b, 10, 2) == ReadU16(b, 10) && BigEndian(b, 12, 8) == ReadU64(b, 12)
  {
    hide ReadU16, ReadU32, ReadU64, BigEndian;
    ReadsBigEndian32(b, 0);
    ReadsBigEndian16(b, 4);
    ReadsBigEndian16(b, 6);
    ReadsBigEndian16(b, 8);
    ReadsBigEndian16(b, 10);
    ReadsBigEndian64(b, 12);
  }

  lemma LimitsBigEndian(b: ByteBuffer)
    requires |b| >= 46
    ensures BigEndian(b, 20, 4) == ReadU32(b, 20) && BigEndian(b, 24, 4) == ReadU32(b, 24)
    ensures BigEndian(b, 28, 4) == ReadU32(b, 28) && BigEndian(b, 32, 4) == ReadU32(b, 32)
    ensures BigEndian(b, 36, 4) == ReadU32(b, 36) && BigEndian(b, 40, 2) == ReadU16(b, 40)
    ensures BigEndian(b, 42, 4) == ReadU32(b, 42)
  {
    hide ReadU16, ReadU32, BigEndian;
    ReadsBigEndian32(b, 20);
    ReadsBigEndian32(b, 24);
    ReadsBigEndian32(b, 28);
    ReadsBigEndian32(b, 32);
    ReadsBigEndian32(b, 36);
    ReadsBigEndian16(b, 40);
    ReadsBigEndian32(b, 42);
  }

  /** A list is its count, then its values, two bytes each. */
  lemma {:induction false} ListLayout(values: seq<uint16>, i: nat)
    requires |values| < 0x1_0000 && i < |values|
    ensures |EnumList(values)| == 2 + 2 * |values| && BigEndian(EnumList(values), 0, 2) == |values|
    ensures BigEndian(EnumList(values), 2 + 2 * i, 2) == values[i]
  {
    var b := EnumList(values);
    ItemStands(values, i);
    assert b[0..2] == U16(|values|) && b[2 + 2 * i..4 + 2 * i] == Items(values)[2 * i..2 * i + 2] == U16(values[i]);
    hide U16, Items, ReadU16, BigEndian;
    ReadsU16(b, 0, |values|);
    ReadsU16(b, 2 + 2 * i, values[i]);
    ReadsBigEndian16(b, 0);
    ReadsBigEndian16(b, 2 + 2 * i);
  }

  lemma {:induction false} ItemStands(values: seq<uint16>, i: nat)
    requires i < |values|
    ensures Items(values)[2 * i..2 * i + 2] == U16(values[i])
  {
    hide U16;
    var init := values[..|values| - 1];
    if i < |init| {
      ItemStands(init, i);
      assert Items(values)[2 * i..2 * i + 2] == Items(init)[2 * i..2 * i + 2];
    }
  }

  /** Why a payload is rejected: by size first, then magic, then version; anything later is malformed. */
  lemma RejectedBecause(options: PayloadOptions, b: ByteBuffer)
    requires Decode(options, b).Rejected?
    ensures var status := Decode(options, b).status;
            && (status == TooLarge <==> |b| > options.maxPayloadBytes)
            && (status == Incomplete <==> |b| <= options.maxPayloadBytes && |b| < 52)
            && (|b| <= options.maxPayloadBytes && |b| >= 52 ==>
                  && (status == InvalidMagic <==> BigEndian(b, 0, 4) != 0x46443243)
                  && (status == UnsupportedVersion <==> BigEndian(b, 0, 4) == 0x46443243 && BigEndian(b, 4, 2) != 1))
  {
    hide ParseLists, ReadU16, ReadU32, BigEndian, FieldU16, FieldU32;
    if |b| >= 52 {
      ReadsBigEndian32(b, 0);
      ReadsBigEndian16(b, 4);
    }
  }

  // ----- everything a decoder accepts

  /** The bytes with all flag bits but the lowest cleared. */
  function Cleared(b: ByteBuffer): ByteBuffer
    requires |b| >= MINIMUM_PAYLOAD_SIZE
  {
    b[10 := 0][11 := b[11] % 2]
  }

  /** The bytes that decode to a value are exactly the payload of that value, whatever their unused flag bits, if the
      value fits the decoder. */
  lemma AcceptedExactly(options: PayloadOptions, b: ByteBuffer, c: ProtocolCapabilities)
    ensures Decode(options, b) == Capabilities(c)
       <==> |b| >= MINIMUM_PAYLOAD_SIZE && Fits(options, c) && Payload(c) == Cleared(b)
  {
    hide Payload, Cleared, Decode, Fits, ReadU16;
    DecodedAreLong(options, b);
    if |b| >= MINIMUM_PAYLOAD_SIZE {
      FlagBitsAreIgnored(options, b);
      DecodeEncode(options, c);
      if Decode(options, b) == Capabilities(c) {
        EncodeDecode(options, Cleared(b));
      }
    }
  }

  lemma DecodedAreLong(options: PayloadOptions, b: ByteBuffer)
    ensures Decode(options, b).Capabilities? ==> |b| >= MINIMUM_PAYLOAD_SIZE
  {
  }

  lemma {:induction false} SameItems(b: ByteBuffer, c: ByteBuffer, offset: nat, count: nat)
    requires |b| == |c| && offset + 2 * count <= |b| && forall i :: offset <= i < |b| ==> b[i] == c[i]
    ensures ParseItems(b, offset, count) == ParseItems(c, offset, count)
  {
    if count > 0 {
      SameItems(b, c, offset, count - 1);
    }
  }

  lemma SameList(b: ByteBuffer, c: ByteBuffer, maxItems: nat, offset: nat)
    requires |b| == |c| && forall i :: offset <= i < |b| ==> b[i] == c[i]
    ensures ParseList(b, maxItems, offset) == ParseList(c, maxItems, offset)
    ensures var r := ParseList(b, maxItems, offset); r.Some? ==> r.value.1 >= offset
  {
    hide ParseItems;
    if ParseList(b, maxItems, offset).Some? {
      SameItems(b, c, offset + 2, FieldU16(b, offset));
    }
  }

  lemma SameLists(options: PayloadOptions, b: ByteBuffer, c: ByteBuffer)
    requires |b| == |c| && forall i :: RECORD_SIZE <= i < |b| ==> b[i] == c[i]
    ensures ParseLists(options, b) == ParseLists(options, c)
  {
    hide ParseList;
    SameList(b, c, options.maxListItems, RECORD_SIZE);
    if ParseList(b, options.maxListItems, RECORD_SIZE).Some? {
      var second := ParseList(b, options.maxListItems, RECORD_SIZE).value.1;
      SameList(b, c, options.maxListItems, second);
      if ParseList(b, options.maxListItems, second).Some? {
        SameList(b, c, options.maxListItems, ParseList(b, options.maxListItems, second).value.1);
      }
    }
  }

  lemma FlagBitsAreIgnored(options: PayloadOptions, b: ByteBuffer)
    requires |b| >= MINIMUM_PAYLOAD_SIZE
    ensures Decode(options, Cleared(b)) == Decode(options, b)
    ensures ReadU16(Cleared(b), 10) <= 1
  {
    var c := Cleared(b);
    SameLists(options, b, c);
    SameRecord(b, c);
    FlagsCleared(b);
    hide ParseRecord, ParseLists, FieldU16, FieldU32, ReadU16, ReadU32, Cleared;
  }

  lemma FlagsCleared(b: ByteBuffer)
    requires |b| >= MINIMUM_PAYLOAD_SIZE
    ensures ReadU16(Cleared(b), 10) == FieldU16(b, 10) % 2
  {
  }

  /** Two buffers that differ in their flags at most. */
  ghost predicate SameButFlags(b: ByteBuffer, c: ByteBuffer) {
    |b| == |c| && forall i :: 0 <= i < |b| && i != 10 && i != 11 ==> b[i] == c[i]
  }

  lemma Same16(b: ByteBuffer, c: ByteBuffer, offset: nat)
    requires SameButFlags(b, c) && offset + 2 <= |b| && (offset + 2 <= 10 || 12 <= offset)
    ensures FieldU16(b, offset) == FieldU16(c, offset)
  {
  }

  lemma Same32(b: ByteBuffer, c: ByteBuffer, offset: nat)
    requires SameButFlags(b, c) && offset + 4 <= |b| && (offset + 4 <= 10 || 12 <= offset)
    ensures FieldU32(b, offset) == FieldU32(c, offset)
  {
    hide SameButFlags, FieldU16, ReadU16, ReadU32;
    Same16(b, c, offset);
    Same16(b, c, offset + 2);
  }

  lemma SameLimits(b: ByteBuffer, c: ByteBuffer)
    requires SameButFlags(b, c) && |b| >= MINIMUM_PAYLOAD_SIZE
    ensures ParseRecord(b).limits == ParseRecord(c).limits
  {
    hide SameButFlags, FieldU16, FieldU32, FieldU64, ReadU16, ReadU32, ReadU64;
    Same32(b, c, 20);
    Same32(b, c, 24);
    Same32(b, c, 28);
    Same32(b, c, 32);
    Same32(b, c, 36);
    Same16(b, c, 40);
    Same32(b, c, 42);
  }

  lemma SameRecord(b: ByteBuffer, c: ByteBuffer)
    requires |b| >= MINIMUM_PAYLOAD_SIZE && c == Cleared(b)
    ensures ParseRecord(c) == ParseRecord(b)
    ensures FieldU32(c, 0) == FieldU32(b, 0) && FieldU16(c, 4) == FieldU16(b, 4)
  {
    FlagsCleared(b);
    assert SameButFlags(b, c);
    hide SameButFlags, FieldU16, FieldU32, ReadU16, ReadU32, ReadU64, Cleared;
    SameLimits(b, c);
    Same32(b, c, 0);
    Same16(b, c, 4);
    Same16(b, c, 6);
    Same16(b, c, 8);
    Same32(b, c, 12);
    Same32(b, c, 16);
  }
}
