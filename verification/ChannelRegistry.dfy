/** The lifecycle of each registered channel and the gate every outgoing packet passes. */
module ChannelRegistry {
  import opened ProtocolTypes
  import opened PriorityScheduler
  import opened NetworkRouter
  import opened CapabilityNegotiation

  datatype ChannelState = Registered | Bound | Ready | Degraded | Closed | Failed

  datatype ChannelSpec = ChannelSpec(key: ChannelKey, allowlist: seq<uint16>)

  datatype ChannelSnapshot = ChannelSnapshot(
    spec: ChannelSpec,
    state: ChannelState,
    bound: bool,
    ready: bool,
    pressure: ChannelPressure)

  datatype Entry = Entry(snapshot: ChannelSnapshot, channel: Option<Channel>)

  datatype RegistryStatus =
    | RegistryOk
    | AlreadyRegistered
    | NotFound
    | NotReady
    | NotNegotiated
    | PacketTypeNotAllowed
    | InvalidArgument

  datatype RegistryResult = RegistryResult(status: RegistryStatus, responseStatus: uint16) {
    predicate Ok() {
      status == RegistryOk
    }
  }

  const SUCCESS := RegistryResult(RegistryOk, STATUS_OK)
  const SPEC_NOT_FOUND := RegistryResult(NotFound, STATUS_CHANNEL_UNAVAILABLE)

  /** The negotiated vocabulary admits the packet. */
  predicate Negotiated(capabilities: ProtocolCapabilities, p: PacketEnvelope) {
    && p.channelType in capabilities.channelTypes
    && p.packetType in capabilities.packetTypes
    && p.messageKind in capabilities.messageKinds
  }

  /** What every operation keeps of an entry: a ready channel is bound, the ready state has the ready flag, and
      the flag outlives that state only in a channel that was bound again. */
  ghost predicate Sound(key: ChannelKey, e: Entry) {
    var s := e.snapshot;
    && s.spec.key == key && key.channelId != 0
    && (s.bound <==> e.channel.Some?)
    && (s.ready ==> s.bound)
    && (s.state == Ready ==> s.ready)
    && (s.ready ==> s.state == Ready || s.state == Bound)
  }

  class ChannelRegistry {
    const capabilities: ProtocolCapabilities
    var entries: map<ChannelKey, Entry>

    ghost predicate Valid()
      reads this
    {
      forall k :: k in entries ==> Sound(k, entries[k])
    }

    constructor (capabilities: ProtocolCapabilities)
      ensures Valid() && this.capabilities == capabilities && entries == map[]
    {
      this.capabilities := capabilities;
      entries := map[];
    }

    method RegisterSpec(spec: ChannelSpec) returns (result: RegistryResult)
      requires Valid()
      modifies this
      ensures Valid()
      ensures result.status == if spec.key.channelId == 0 then InvalidArgument
                               else if spec.key in old(entries) then AlreadyRegistered else RegistryOk
      ensures entries == if result.Ok() then
                           old(entries)[spec.key :=
                                        Entry(ChannelSnapshot(spec, Registered, false, false,
                                                              ChannelPressure(Healthy, 0)), None)]
                         else old(entries)
    {
      if spec.key.channelId == 0 {
        return RegistryResult(InvalidArgument, STATUS_INVALID_ARGUMENT);
      }
      if spec.key in entries {
        return RegistryResult(AlreadyRegistered, STATUS_CONFLICT);
      }
      var snapshot := ChannelSnapshot(spec, Registered, false, false, ChannelPressure(Healthy, 0));
      entries := entries[spec.key := Entry(snapshot, None)];
      result := SUCCESS;
    }

    /** A bound channel is not ready, although its snapshot keeps the ready flag it had: right after a bind the
        flag tells the truth exactly when it was off before. */
    method Bind(key: ChannelKey, channel: Channel?) returns (result: RegistryResult)
      requires Valid()
      modifies this
      ensures Valid()
      ensures result.status == if key !in old(entries) then NotFound
                               else if channel == null then InvalidArgument else RegistryOk
      ensures entries == if result.Ok() then
                           var s := old(entries)[key].snapshot;
                           old(entries)[key := Entry(s.(bound := true, state := Bound), Some(channel))]
                         else old(entries)
      ensures result.Ok() ==>
                !IsReady(key) && ((entries[key].snapshot.ready <==> IsReady(key))
                                  <==> !old(entries)[key].snapshot.ready)
    {
      if key !in entries {
        return SPEC_NOT_FOUND;
      }
      if channel == null {
        return RegistryResult(InvalidArgument, STATUS_INVALID_ARGUMENT);
      }
      entries := entries[key := Entry(entries[key].snapshot.(bound := true, state := Bound), Some(channel))];
      result := SUCCESS;
    }

    method Unbind(key: ChannelKey)
      requires Valid()
      modifies this
      ensures Valid()
      ensures entries == if key in old(entries) then
                           var s := old(entries)[key].snapshot;
                           old(entries)[key := Entry(s.(bound := false, ready := false, state := Closed), None)]
                         else old(entries)
    {
      if key in entries {
        var snapshot := entries[key].snapshot.(bound := false, ready := false, state := Closed);
        entries := entries[key := Entry(snapshot, None)];
      }
    }

    method MarkReady(key: ChannelKey) returns (result: RegistryResult)
      requires Valid()
      modifies this
      ensures Valid()
      ensures result.Ok() <==>
                key in old(entries) && old(entries)[key].channel.Some? && old(entries)[key].channel.value.open
      ensures entries == if result.Ok() then
                           var e := old(entries)[key];
                           old(entries)[key := e.(snapshot := e.snapshot.(ready := true, state := Ready))]
                         else old(entries)
    {
      if key !in entries {
        return SPEC_NOT_FOUND;
      }
      var entry := entries[key];
      if entry.channel == None || !entry.channel.value.open {
        return RegistryResult(NotReady, STATUS_CHANNEL_UNAVAILABLE);
      }
      entries := entries[key := entry.(snapshot := entry.snapshot.(ready := true, state := Ready))];
      result := SUCCESS;
    }

    /** markDegraded and markFailed differ only in the state they leave. */
    method MarkDown(key: ChannelKey, state: ChannelState) returns (result: RegistryResult)
      requires Valid() && (state == Degraded || state == Failed)
      modifies this
      ensures Valid()
      ensures result.Ok() <==> key in old(entries)
      ensures entries == if key in old(entries) then
                           var e := old(entries)[key];
                           old(entries)[key := e.(snapshot := e.snapshot.(ready := false, state := state))]
                         else old(entries)
    {
      if key !in entries {
        return SPEC_NOT_FOUND;
      }
      entries := entries[key := entries[key].(snapshot := entries[key].snapshot.(ready := false, state := state))];
      result := SUCCESS;
    }

    method UpdatePressure(key: ChannelKey, pressure: ChannelPressure) returns (result: RegistryResult)
      requires Valid()
      modifies this
      ensures Valid()
      ensures result.Ok() <==> key in old(entries)
      ensures entries == if key in old(entries) then
                           var e := old(entries)[key];
                           old(entries)[key := e.(snapshot := e.snapshot.(pressure := pressure))]
                         else old(entries)
    {
      if key !in entries {
        return SPEC_NOT_FOUND;
      }
      entries := entries[key := entries[key].(snapshot := entries[key].snapshot.(pressure := pressure))];
      result := SUCCESS;
    }

    predicate IsReady(key: ChannelKey)
      reads this
    {
      key in entries && entries[key].snapshot.ready && entries[key].snapshot.state == Ready
    }

    function ValidatePacket(p: PacketEnvelope): RegistryResult
      reads this
    {
      if p.Key() !in entries then RegistryResult(NotFound, STATUS_CHANNEL_UNAVAILABLE)
      else if !Negotiated(capabilities, p) then RegistryResult(NotNegotiated, STATUS_UNSUPPORTED)
      else if entries[p.Key()].snapshot.spec.allowlist != []
           && p.packetType !in entries[p.Key()].snapshot.spec.allowlist then
        RegistryResult(PacketTypeNotAllowed, STATUS_UNSUPPORTED)
      else if !IsReady(p.Key()) then RegistryResult(NotReady, STATUS_CHANNEL_UNAVAILABLE)
      else SUCCESS
    }
  }

  /** In every reachable registry: the ready flag of a snapshot can be trusted exactly when the channel is not one
      that was bound again while ready. */
  lemma ReadyFlagIsRightExactlyWhen(registry: ChannelRegistry, key: ChannelKey)
    requires registry.Valid() && key in registry.entries
    ensures var s := registry.entries[key].snapshot;
            (s.ready <==> registry.IsReady(key)) <==> !(s.ready && s.state == Bound)
  {
    assert Sound(key, registry.entries[key]);
  }

  /** A packet passes the gate only on a channel that is bound, and bound under the packet's own key. */
  lemma AcceptedPacketIsBound(registry: ChannelRegistry, p: PacketEnvelope)
    requires registry.Valid() && registry.ValidatePacket(p).Ok()
    ensures p.Key() in registry.entries && registry.IsReady(p.Key())
    ensures var e := registry.entries[p.Key()]; e.channel.Some? && e.snapshot.bound && e.snapshot.spec.key == p.Key()
  {
    assert Sound(p.Key(), registry.entries[p.Key()]);
  }

  /** A packet passes exactly when its channel type, packet type and kind were negotiated and its channel is known,
      ready, and admits the type; otherwise the first thing missing, in that order of asking, gives the status. */
  lemma PassesExactly(registry: ChannelRegistry, p: PacketEnvelope)
    ensures var r, key := registry.ValidatePacket(p), ChannelKey(p.channelId, p.channelType);
            var negotiated := p.channelType in registry.capabilities.channelTypes
                              && p.packetType in registry.capabilities.packetTypes
                              && p.messageKind in registry.capabilities.messageKinds;
            if key !in registry.entries then r == RegistryResult(NotFound, 111)
            else
              var s := registry.entries[key].snapshot;
              var admitted := s.spec.allowlist == [] || p.packetType in s.spec.allowlist;
              && (r == RegistryResult(RegistryOk, 0) <==> negotiated && admitted && s.ready && s.state == Ready)
              && (r == RegistryResult(NotNegotiated, 103) <==> !negotiated)
              && (r == RegistryResult(PacketTypeNotAllowed, 103) <==> negotiated && !admitted)
              && (r == RegistryResult(NotReady, 111) <==> negotiated && admitted && !(s.ready && s.state == Ready))
  {
  }
}
