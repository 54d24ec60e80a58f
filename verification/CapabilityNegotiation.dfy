/** Agreeing on a common protocol: versions, features, vocabularies and limits. */
module CapabilityNegotiation {
  import opened ProtocolTypes

  datatype ProtocolLimits = ProtocolLimits(
    maxPayloadBytes: uint32,
    maxStreamChunkBytes: uint32,
    minRequestTimeoutMs: uint32,
    defaultRequestTimeoutMs: uint32,
    maxRequestTimeoutMs: uint32,
    maxChannels: uint16,
    maxPendingRequests: uint32)

  datatype ProtocolCapabilities = ProtocolCapabilities(
    protocolMajor: uint16,
    protocolMinor: uint16,
    features: uint64,
    channelTypes: seq<uint16>,
    packetTypes: seq<uint16>,
    messageKinds: seq<uint16>,
    limits: ProtocolLimits,
    directTunnel: bool)

  const DEFAULT_LIMITS := ProtocolLimits(16 * 1024 * 1024, 1024 * 1024, 100, 5000, 30000, 16, 4096)

  datatype CapabilityKind = ProtocolVersion | Feature | ChannelType | PacketType | MessageKind | Limit | DirectTunnel

  datatype DenialReason = UnsupportedByLocal | UnsupportedByRemote | IncompatibleProtocol | NoCommonValue
    | LimitConflict

  datatype Denial = Denial(kind: CapabilityKind, value: uint64, reason: DenialReason)

  datatype NegotiationResult = NegotiationResult(
    compatible: bool,
    negotiated: ProtocolCapabilities,
    denials: seq<Denial>)

  // ----- bit masks

  /** Bitwise conjunction, digit by digit. */
  function And(a: uint64, b: uint64): (r: uint64)
    ensures r <= a && r <= b
  {
    if a == 0 || b == 0 then 0 else 2 * And(a / 2, b / 2) + if a % 2 == 1 && b % 2 == 1 then 1 else 0
  }

  lemma {:induction false} AndIsBitwise(a: uint64, b: uint64, place: nat)
    ensures DigitOf(And(a, b), place) == (DigitOf(a, place) && DigitOf(b, place))
  {
    if a == 0 || b == 0 {
      ZeroDigits(place);
    } else if place > 0 {
      AndIsBitwise(a / 2, b / 2, place - 1);
      assert And(a, b) / 2 == And(a / 2, b / 2);
    }
  }

  lemma ZeroDigits(place: nat)
    ensures !DigitOf(0, place)
  {
  }

  // ----- specification

  /** The distinct values of `local` that `remote` also offers, in the order `local` lists them. */
  function Common(local: seq<uint16>, remote: seq<uint16>): seq<uint16> {
    if local == [] then []
    else
      var init, v := Common(local[..|local| - 1], remote), local[|local| - 1];
      if v !in init && v in remote then init + [v] else init
  }

  function Unsupported(kind: CapabilityKind, offered: seq<uint16>, supported: seq<uint16>,
                       reason: DenialReason): seq<Denial> {
    if offered == [] then []
    else
      var v := offered[|offered| - 1];
      Unsupported(kind, offered[..|offered| - 1], supported, reason)
      + if v in supported then [] else [Denial(kind, v, reason)]
  }

  function DenyIf(denied: bool, kind: CapabilityKind, value: uint64, reason: DenialReason): seq<Denial> {
    if denied then [Denial(kind, value, reason)] else []
  }

  function NegotiateLimits(local: ProtocolLimits, remote: ProtocolLimits): ProtocolLimits {
    var least := Max(local.minRequestTimeoutMs, remote.minRequestTimeoutMs);
    var most := Min(local.maxRequestTimeoutMs, remote.maxRequestTimeoutMs);
    var preferred := Min(local.defaultRequestTimeoutMs, remote.defaultRequestTimeoutMs);
    ProtocolLimits(
      Min(local.maxPayloadBytes, remote.maxPayloadBytes),
      Min(local.maxStreamChunkBytes, remote.maxStreamChunkBytes),
      least,
      if least <= most then Min(Max(preferred, least), most) else preferred,
      most,
      Min(local.maxChannels, remote.maxChannels),
      Min(local.maxPendingRequests, remote.maxPendingRequests))
  }

  predicate UsableLimits(limits: ProtocolLimits) {
    && limits.maxPayloadBytes != 0
    && limits.maxStreamChunkBytes != 0
    && limits.minRequestTimeoutMs <= limits.maxRequestTimeoutMs
    && limits.maxChannels != 0
    && limits.maxPendingRequests != 0
  }

  function LimitDenials(limits: ProtocolLimits): seq<Denial> {
    DenyIf(limits.maxPayloadBytes == 0, Limit, 0, LimitConflict)
    + DenyIf(limits.maxStreamChunkBytes == 0, Limit, 0, LimitConflict)
    + DenyIf(limits.minRequestTimeoutMs > limits.maxRequestTimeoutMs, Limit, 0, LimitConflict)
    + DenyIf(limits.maxChannels == 0, Limit, 0, LimitConflict)
    + DenyIf(limits.maxPendingRequests == 0, Limit, 0, LimitConflict)
  }

  function VocabularyDenials(kind: CapabilityKind, local: seq<uint16>, remote: seq<uint16>): seq<Denial> {
    Unsupported(kind, local, remote, UnsupportedByRemote) + Unsupported(kind, remote, local, UnsupportedByLocal)
  }

  function Negotiate(local: ProtocolCapabilities, remote: ProtocolCapabilities): NegotiationResult {
    var minor := Min(local.protocolMinor, remote.protocolMinor);
    if local.protocolMajor != remote.protocolMajor then
      NegotiationResult(false,
                        ProtocolCapabilities(local.protocolMajor, minor, 0, [], [], [], DEFAULT_LIMITS, false),
                        [Denial(ProtocolVersion, remote.protocolMajor, IncompatibleProtocol)])
    else
      var features := And(local.features, remote.features);
      var channelTypes := Common(local.channelTypes, remote.channelTypes);
      var packetTypes := Common(local.packetTypes, remote.packetTypes);
      var messageKinds := Common(local.messageKinds, remote.messageKinds);
      var limits := NegotiateLimits(local.limits, remote.limits);
      var denials :=
        DenyIf(local.features != features, Feature, local.features - features, UnsupportedByRemote)
        + DenyIf(remote.features != features, Feature, remote.features - features, UnsupportedByLocal)
        + VocabularyDenials(ChannelType, local.channelTypes, remote.channelTypes)
        + VocabularyDenials(PacketType, local.packetTypes, remote.packetTypes)
        + VocabularyDenials(MessageKind, local.messageKinds, remote.messageKinds)
        + DenyIf(channelTypes == [], ChannelType, 0, NoCommonValue)
        + DenyIf(packetTypes == [], PacketType, 0, NoCommonValue)
        + DenyIf(messageKinds == [], MessageKind, 0, NoCommonValue)
        + LimitDenials(limits)
        + DenyIf(local.directTunnel && !remote.directTunnel, DirectTunnel, 1, UnsupportedByRemote)
        + DenyIf(!local.directTunnel && remote.directTunnel, DirectTunnel, 1, UnsupportedByLocal);
      NegotiationResult(
        channelTypes != [] && packetTypes != [] && messageKinds != [] && UsableLimits(limits),
        ProtocolCapabilities(local.protocolMajor, minor, features, channelTypes, packetTypes, messageKinds, limits,
                             local.directTunnel && remote.directTunnel),
        denials)
  }

  // ----- the loops

  method IntersectValues(local: seq<uint16>, remote: seq<uint16>) returns (result: seq<uint16>)
    ensures result == Common(local, remote)
  {
    result := [];
    for i := 0 to |local|
      invariant result == Common(local[..i], remote)
    {
      assert local[..i + 1][..i] == local[..i];
      if local[i] !in result && local[i] in remote {
        result := result + [local[i]];
      }
    }
    assert local[..|local|] == local;
  }

  method AddUnsupportedValues(denials: seq<Denial>, kind: CapabilityKind, offered: seq<uint16>,
                              supported: seq<uint16>, reason: DenialReason)
    returns (extended: seq<Denial>)
    ensures extended == denials + Unsupported(kind, offered, supported, reason)
  {
    extended := denials;
    for i := 0 to |offered|
      invariant extended == denials + Unsupported(kind, offered[..i], supported, reason)
    {
      assert offered[..i + 1][..i] == offered[..i];
      if offered[i] !in supported {
        extended := extended + [Denial(kind, offered[i], reason)];
      }
    }
    assert offered[..|offered|] == offered;
  }

  // ----- both sides reach the same agreement

  ghost predicate NoDuplicates(s: seq<uint16>) {
    forall i, j :: 0 <= i < j < |s| ==> s[i] != s[j]
  }

  lemma {:induction false} CommonIsIntersection(local: seq<uint16>, remote: seq<uint16>)
    ensures NoDuplicates(Common(local, remote))
    ensures forall v :: v in Common(local, remote) <==> v in local && v in remote
  {
    if local != [] {
      CommonIsIntersection(local[..|local| - 1], remote);
      assert local == local[..|local| - 1] + [local[|local| - 1]];
    }
  }

  lemma {:induction false} AndCommutes(a: uint64, b: uint64)
    ensures And(a, b) == And(b, a)
  {
    if a != 0 && b != 0 {
      AndCommutes(a / 2, b / 2);
    }
  }

  ghost predicate SameValues(s: seq<uint16>, t: seq<uint16>) {
    NoDuplicates(s) && NoDuplicates(t) && forall v :: v in s <==> v in t
  }

  /** Whichever side negotiates, the verdict is the same, and peers of the same major version agree on the
      minor version, the features, the limits, the tunnel and, as sets, on every vocabulary. */
  lemma NegotiationIsSymmetric(a: ProtocolCapabilities, b: ProtocolCapabilities)
    ensures var x, y := Negotiate(a, b), Negotiate(b, a);
            && x.compatible == y.compatible
            && x.negotiated.protocolMinor == y.negotiated.protocolMinor
            && (a.protocolMajor == b.protocolMajor ==>
                  && x.negotiated.protocolMajor == y.negotiated.protocolMajor
                  && x.negotiated.features == y.negotiated.features
                  && x.negotiated.limits == y.negotiated.limits
                  && x.negotiated.directTunnel == y.negotiated.directTunnel
                  && SameValues(x.negotiated.channelTypes, y.negotiated.channelTypes)
                  && SameValues(x.negotiated.packetTypes, y.negotiated.packetTypes)
                  && SameValues(x.negotiated.messageKinds, y.negotiated.messageKinds))
  {
    AndCommutes(a.features, b.features);
    CommonIsSymmetric(a.channelTypes, b.channelTypes);
    CommonIsSymmetric(a.packetTypes, b.packetTypes);
    CommonIsSymmetric(a.messageKinds, b.messageKinds);
    hide Common, And, Unsupported;
  }

  lemma CommonIsSymmetric(s: seq<uint16>, t: seq<uint16>)
    ensures SameValues(Common(s, t), Common(t, s))
    ensures Common(s, t) == [] <==> Common(t, s) == []
  {
    CommonIsIntersection(s, t);
    CommonIsIntersection(t, s);
    if Common(s, t) != [] {
      assert Common(s, t)[0] in Common(t, s);
    }
    if Common(t, s) != [] {
      assert Common(t, s)[0] in Common(s, t);
    }
  }

  ghost predicate ShareAValue(s: seq<uint16>, t: seq<uint16>) {
    exists v :: v in s && v in t
  }

  lemma CommonNonEmpty(s: seq<uint16>, t: seq<uint16>)
    ensures Common(s, t) != [] <==> ShareAValue(s, t)
  {
    CommonIsIntersection(s, t);
    if Common(s, t) != [] {
      assert Common(s, t)[0] in s && Common(s, t)[0] in t;
    }
  }

  predicate AllowsTimeout(limits: ProtocolLimits, ms: nat) {
    limits.minRequestTimeoutMs <= ms <= limits.maxRequestTimeoutMs
  }

  /** Exactly when two peers can talk: one major version, a common value of every vocabulary, no zero
      size or count on either side, and overlapping timeout ranges. The agreed default timeout then lies in
      the agreed range, and no limit exceeds either side's own. */
  lemma CompatibleExactlyWhen(a: ProtocolCapabilities, b: ProtocolCapabilities)
    ensures Negotiate(a, b).compatible <==>
              && a.protocolMajor == b.protocolMajor
              && ShareAValue(a.channelTypes, b.channelTypes)
              && ShareAValue(a.packetTypes, b.packetTypes)
              && ShareAValue(a.messageKinds, b.messageKinds)
              && a.limits.maxPayloadBytes > 0 && b.limits.maxPayloadBytes > 0
              && a.limits.maxStreamChunkBytes > 0 && b.limits.maxStreamChunkBytes > 0
              && a.limits.maxChannels > 0 && b.limits.maxChannels > 0
              && a.limits.maxPendingRequests > 0 && b.limits.maxPendingRequests > 0
              && (exists ms: nat :: AllowsTimeout(a.limits, ms) && AllowsTimeout(b.limits, ms))
    ensures Negotiate(a, b).compatible ==>
              var l := Negotiate(a, b).negotiated.limits;
              && l.minRequestTimeoutMs <= l.defaultRequestTimeoutMs <= l.maxRequestTimeoutMs
              && l.maxPayloadBytes <= a.limits.maxPayloadBytes && l.maxPayloadBytes <= b.limits.maxPayloadBytes
  {
    CommonNonEmpty(a.channelTypes, b.channelTypes);
    CommonNonEmpty(a.packetTypes, b.packetTypes);
    CommonNonEmpty(a.messageKinds, b.messageKinds);
    hide Common, And, Unsupported, ShareAValue;
    var least := Max(a.limits.minRequestTimeoutMs, b.limits.minRequestTimeoutMs);
    assert least <= Min(a.limits.maxRequestTimeoutMs, b.limits.maxRequestTimeoutMs) ==>
             AllowsTimeout(a.limits, least) && AllowsTimeout(b.limits, least);
  }

  predicate Admits(limit: nat, n: nat) {
    n <= limit
  }

  ghost predicate AdmitsWhatBothDo(agreed: nat, a: nat, b: nat) {
    forall n: nat :: Admits(agreed, n) <==> Admits(a, n) && Admits(b, n)
  }

  /** Peers of one major version agree on exactly what both allow: feature by feature, value by value, every
      size, count and timeout. */
  lemma AgreedIsWhatBothAllow(a: ProtocolCapabilities, b: ProtocolCapabilities)
    requires a.protocolMajor == b.protocolMajor
    ensures var c := Negotiate(a, b).negotiated;
            && c.protocolMajor == a.protocolMajor
            && AdmitsWhatBothDo(c.protocolMinor, a.protocolMinor, b.protocolMinor)
            && (forall place: nat ::
                  DigitOf(c.features, place) <==> DigitOf(a.features, place) && DigitOf(b.features, place))
            && (forall v :: v in c.channelTypes <==> v in a.channelTypes && v in b.channelTypes)
            && (forall v :: v in c.packetTypes <==> v in a.packetTypes && v in b.packetTypes)
            && (forall v :: v in c.messageKinds <==> v in a.messageKinds && v in b.messageKinds)
            && (c.directTunnel <==> a.directTunnel && b.directTunnel)
    ensures var l, x, y := Negotiate(a, b).negotiated.limits, a.limits, b.limits;
            && AdmitsWhatBothDo(l.maxPayloadBytes, x.maxPayloadBytes, y.maxPayloadBytes)
            && AdmitsWhatBothDo(l.maxStreamChunkBytes, x.maxStreamChunkBytes, y.maxStreamChunkBytes)
            && AdmitsWhatBothDo(l.maxChannels, x.maxChannels, y.maxChannels)
            && AdmitsWhatBothDo(l.maxPendingRequests, x.maxPendingRequests, y.maxPendingRequests)
            && (forall ms: nat :: AllowsTimeout(l, ms) <==> AllowsTimeout(x, ms) && AllowsTimeout(y, ms))
  {
    forall place: nat ensures DigitOf(And(a.features, b.features), place)
      == (DigitOf(a.features, place) && DigitOf(b.features, place)) {
      AndIsBitwise(a.features, b.features, place);
    }
    CommonIsIntersection(a.channelTypes, b.channelTypes);
    CommonIsIntersection(a.packetTypes, b.packetTypes);
    CommonIsIntersection(a.messageKinds, b.messageKinds);
    hide Common, And, Unsupported, DigitOf;
  }

  /** Nothing is denied exactly when the result is compatible and the two offers agree on every feature, on the
      tunnel and on every vocabulary value: whatever the peers do not share is reported, and nothing else is. */
  lemma NothingDeniedMeansShared(a: ProtocolCapabilities, b: ProtocolCapabilities)
    ensures Negotiate(a, b).denials == [] <==>
              && Negotiate(a, b).compatible && a.features == b.features && a.directTunnel == b.directTunnel
              && (forall v :: v in a.channelTypes <==> v in b.channelTypes)
              && (forall v :: v in a.packetTypes <==> v in b.packetTypes)
              && (forall v :: v in a.messageKinds <==> v in b.messageKinds)
  {
    NothingUnsupported(ChannelType, a.channelTypes, b.channelTypes);
    NothingUnsupported(PacketType, a.packetTypes, b.packetTypes);
    NothingUnsupported(MessageKind, a.messageKinds, b.messageKinds);
    if a.features == b.features {
      AndOfItself(a.features);
    }
    hide Common, And, VocabularyDenials;
  }

  lemma {:induction false} AndOfItself(a: uint64)
    ensures And(a, a) == a
  {
    if a != 0 {
      AndOfItself(a / 2);
    }
  }

  lemma NothingUnsupported(kind: CapabilityKind, local: seq<uint16>, remote: seq<uint16>)
    ensures VocabularyDenials(kind, local, remote) == [] <==> forall v :: v in local <==> v in remote
  {
    OnlyUnsupported(kind, local, remote, UnsupportedByRemote);
    OnlyUnsupported(kind, remote, local, UnsupportedByLocal);
  }

  lemma {:induction false} OnlyUnsupported(kind: CapabilityKind, offered: seq<uint16>, supported: seq<uint16>,
                                           reason: DenialReason)
    ensures Unsupported(kind, offered, supported, reason) == [] <==> forall v :: v in offered ==> v in supported
  {
    if offered != [] {
      OnlyUnsupported(kind, offered[..|offered| - 1], supported, reason);
      assert offered == offered[..|offered| - 1] + [offered[|offered| - 1]];
    }
  }

  function Distance(a: nat, b: nat): nat {
    if a <= b then b - a else a - b
  }

  /** The agreed default timeout is the one in the agreed range that is nearest to the smaller of both defaults. */
  lemma DefaultTimeoutIsNearest(a: ProtocolCapabilities, b: ProtocolCapabilities, ms: nat)
    requires Negotiate(a, b).compatible
    ensures var l, wish := Negotiate(a, b).negotiated.limits,
            Min(a.limits.defaultRequestTimeoutMs, b.limits.defaultRequestTimeoutMs);
            && l.minRequestTimeoutMs <= l.defaultRequestTimeoutMs <= l.maxRequestTimeoutMs
            && (l.minRequestTimeoutMs <= ms <= l.maxRequestTimeoutMs ==>
                  Distance(l.defaultRequestTimeoutMs, wish) <= Distance(ms, wish))
  {
    hide Common, And, Unsupported;
  }

  /** Peers of different major versions agree on nothing: one denial names the other's version. */
  lemma DifferentMajors(a: ProtocolCapabilities, b: ProtocolCapabilities)
    requires a.protocolMajor != b.protocolMajor
    ensures var r := Negotiate(a, b);
            && !r.compatible && r.denials == [Denial(ProtocolVersion, b.protocolMajor, IncompatibleProtocol)]
            && r.negotiated.protocolMajor == a.protocolMajor && r.negotiated.features == 0
            && r.negotiated.channelTypes == r.negotiated.packetTypes == r.negotiated.messageKinds == []
  {
  }

  // ----- what is denied

  /** What may be denied, and why: something one side offers and the other lacks, a vocabulary without a common value,
      or limits without room. */
  ghost predicate Deserved(a: ProtocolCapabilities, b: ProtocolCapabilities, d: Denial) {
    match d.kind
    case ProtocolVersion => false
    case Feature =>
      d.value != 0
      && ((d.reason == UnsupportedByRemote && OnlyInFirst(a.features, b.features, d.value))
          || (d.reason == UnsupportedByLocal && OnlyInFirst(b.features, a.features, d.value)))
    case ChannelType => WordMissing(a.channelTypes, b.channelTypes, d)
    case PacketType => WordMissing(a.packetTypes, b.packetTypes, d)
    case MessageKind => WordMissing(a.messageKinds, b.messageKinds, d)
    case Limit => d.value == 0 && d.reason == LimitConflict && NoRoom(a.limits, b.limits)
    case DirectTunnel =>
      d.value == 1 && ((d.reason == UnsupportedByRemote && a.directTunnel && !b.directTunnel)
                       || (d.reason == UnsupportedByLocal && b.directTunnel && !a.directTunnel))
  }

  ghost predicate OnlyInFirst(first: uint64, second: uint64, bits: uint64) {
    forall place: nat :: DigitOf(bits, place) <==> DigitOf(first, place) && !DigitOf(second, place)
  }

  ghost predicate WordMissing(local: seq<uint16>, remote: seq<uint16>, d: Denial) {
    || (d.reason == UnsupportedByRemote && d.value in local && d.value !in remote)
    || (d.reason == UnsupportedByLocal && d.value in remote && d.value !in local)
    || (d.reason == NoCommonValue && d.value == 0 && !ShareAValue(local, remote))
  }

  ghost predicate NoRoom(a: ProtocolLimits, b: ProtocolLimits) {
    || a.maxPayloadBytes == 0 || b.maxPayloadBytes == 0
    || a.maxStreamChunkBytes == 0 || b.maxStreamChunkBytes == 0
    || a.maxChannels == 0 || b.maxChannels == 0
    || a.maxPendingRequests == 0 || b.maxPendingRequests == 0
    || !exists ms: nat :: AllowsTimeout(a, ms) && AllowsTimeout(b, ms)
  }

  lemma DenialsExactly(a: ProtocolCapabilities, b: ProtocolCapabilities, d: Denial)
    requires a.protocolMajor == b.protocolMajor
    ensures d in Negotiate(a, b).denials <==> Deserved(a, b, d)
  {
    var features, limits := And(a.features, b.features), NegotiateLimits(a.limits, b.limits);
    FeatureDenied(a.features, b.features, d.value);
    AndCommutes(a.features, b.features);
    FeatureDenied(b.features, a.features, d.value);
    WordDenied(ChannelType, a.channelTypes, b.channelTypes, d);
    WordDenied(PacketType, a.packetTypes, b.packetTypes, d);
    WordDenied(MessageKind, a.messageKinds, b.messageKinds, d);
    LimitDenied(a.limits, b.limits, d);
    hide Common, And, OnlyInFirst, VocabularyDenials, ShareAValue, LimitDenials, NegotiateLimits, NoRoom, WordMissing;
  }

  lemma FeatureDenied(first: uint64, second: uint64, bits: uint64)
    ensures (first != And(first, second) && bits == first - And(first, second))
       <==> bits != 0 && OnlyInFirst(first, second, bits)
  {
    var rest := first - And(first, second);
    forall place: nat ensures DigitOf(rest, place) <==> DigitOf(first, place) && !DigitOf(second, place) {
      DigitsLeft(first, second, place);
    }
    hide And;
    if OnlyInFirst(first, second, bits) {
      SameDigitsSameNumber(bits, rest);
    }
  }

  lemma {:induction false} DigitsLeft(a: uint64, b: uint64, place: nat)
    ensures DigitOf(a - And(a, b), place) <==> DigitOf(a, place) && !DigitOf(b, place)
  {
    if a == 0 || b == 0 {
      ZeroDigits(place);
    } else if place > 0 {
      DigitsLeft(a / 2, b / 2, place - 1);
      assert (a - And(a, b)) / 2 == a / 2 - And(a / 2, b / 2);
    }
  }

  lemma WordDenied(kind: CapabilityKind, local: seq<uint16>, remote: seq<uint16>, d: Denial)
    ensures d in VocabularyDenials(kind, local, remote) + DenyIf(Common(local, remote) == [], kind, 0, NoCommonValue)
       <==> d.kind == kind && WordMissing(local, remote, d)
  {
    UnsupportedExactly(kind, local, remote, UnsupportedByRemote, d);
    UnsupportedExactly(kind, remote, local, UnsupportedByLocal, d);
    CommonNonEmpty(local, remote);
    hide Common, Unsupported, ShareAValue;
  }

  lemma {:induction false} UnsupportedExactly(kind: CapabilityKind, offered: seq<uint16>, supported: seq<uint16>,
                                              reason: DenialReason, d: Denial)
    ensures d in Unsupported(kind, offered, supported, reason)
       <==> d.kind == kind && d.reason == reason && d.value in offered && d.value !in supported
  {
    if offered != [] {
      UnsupportedExactly(kind, offered[..|offered| - 1], supported, reason, d);
      assert offered == offered[..|offered| - 1] + [offered[|offered| - 1]];
    }
  }

  lemma LimitDenied(a: ProtocolLimits, b: ProtocolLimits, d: Denial)
    ensures d in LimitDenials(NegotiateLimits(a, b)) <==> d == Denial(Limit, 0, LimitConflict) && NoRoom(a, b)
  {
    var least := Max(a.minRequestTimeoutMs, b.minRequestTimeoutMs);
    assert least <= Min(a.maxRequestTimeoutMs, b.maxRequestTimeoutMs) ==>
             AllowsTimeout(a, least) && AllowsTimeout(b, least);
  }

  lemma {:induction false} SameDigitsSameNumber(a: nat, b: nat)
    requires forall place: nat :: DigitOf(a, place) == DigitOf(b, place)
    ensures a == b
  {
    if a > 0 || b > 0 {
      assert DigitOf(a, 0) == DigitOf(b, 0);
      forall place: nat ensures DigitOf(a / 2, place) == DigitOf(b / 2, place) {
        assert DigitOf(a, place + 1) == DigitOf(b, place + 1);
      }
      SameDigitsSameNumber(a / 2, b / 2);
    }
  }
}
