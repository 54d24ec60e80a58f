/** Which channel a bulk clipboard response takes, and the byte window on the large-data channel. */
module LargeDataScheduler {
  import opened ProtocolTypes
  import opened PriorityScheduler
  import opened ChannelRegistry

  const SMALL_DATA := ChannelKey(CHANNEL_ID_SMALL_DATA, CHANNEL_STANDARD)
  const LARGE_DATA := ChannelKey(CHANNEL_ID_LARGE_DATA, CHANNEL_STANDARD)

  datatype ScheduleOptions = ScheduleOptions(smallDataFallbackBytes: nat, windowBytes: nat, inFlightBytes: nat)

  datatype ScheduleResult = ScheduleResult(status: uint16, channel: ChannelKey, usesLargeData: bool)

  predicate PressureBlocksBulk(level: PressureLevel) {
    level == Congested || level == PressureClosed || level == PressureFailed
  }

  predicate WindowBlocksBulk(payloadBytes: nat, options: ScheduleOptions) {
    options.windowBytes != 0
    && (options.inFlightBytes >= options.windowBytes || payloadBytes > options.windowBytes - options.inFlightBytes)
  }

  function Schedule(channels: ChannelRegistry?, p: PacketEnvelope, payloadBytes: nat,
                    options: ScheduleOptions): ScheduleResult
    reads channels
  {
    var small := ScheduleResult(STATUS_OK, SMALL_DATA, false);
    if p.packetType != PACKET_CLIPBOARD || p.priority != PRIORITY_BULK || channels == null then small
    else
      var validation := channels.ValidatePacket(p.(channelId := LARGE_DATA.channelId,
                                                   channelType := LARGE_DATA.channelType));
      if validation.Ok() then
        if PressureBlocksBulk(channels.entries[LARGE_DATA].snapshot.pressure.level) then
          small.(status := STATUS_BACK_PRESSURE)
        else if WindowBlocksBulk(payloadBytes, options) then small.(status := STATUS_BACK_PRESSURE)
        else ScheduleResult(STATUS_OK, LARGE_DATA, true)
      else
        var fallback := if options.smallDataFallbackBytes == 0 then 1024 * 1024 else options.smallDataFallbackBytes;
        if payloadBytes <= fallback then small else small.(status := validation.responseStatus)
  }

  /** Bytes in flight against a maximum; zero means no maximum. `reservedBytes` totals what was ever
      reserved and `clampFired` records a release of more than was in flight. */
  class LargeDataWindow {
    var maxInFlightBytes: nat
    var inFlightBytes: nat
    var reservations: nat
    var releasedBytes: nat
    ghost var reservedBytes: nat
    ghost var clampFired: bool

    ghost predicate Valid()
      reads this
    {
      reservedBytes == releasedBytes + inFlightBytes
    }

    ghost predicate WithinMaximum()
      reads this
    {
      maxInFlightBytes != 0 ==> inFlightBytes <= maxInFlightBytes
    }

    constructor (maxInFlightBytes: nat)
      ensures Valid() && WithinMaximum() && inFlightBytes == 0 && !clampFired
      ensures this.maxInFlightBytes == maxInFlightBytes
    {
      this.maxInFlightBytes := maxInFlightBytes;
      inFlightBytes, reservations, releasedBytes, reservedBytes, clampFired := 0, 0, 0, 0, false;
    }

    method SetMaxInFlightBytes(bytes: nat)
      requires Valid()
      modifies this`maxInFlightBytes
      ensures Valid() && maxInFlightBytes == bytes
      ensures WithinMaximum() <==> bytes == 0 || inFlightBytes <= bytes
    {
      maxInFlightBytes := bytes;
    }

    method Reserve(bytes: nat) returns (status: uint16)
      requires Valid()
      modifies this`inFlightBytes, this`reservations, this`reservedBytes
      ensures Valid()
      ensures var blocked := WindowBlocksBulk(bytes, ScheduleOptions(0, maxInFlightBytes, old(inFlightBytes)));
              status == if blocked then STATUS_BACK_PRESSURE else STATUS_OK
      ensures inFlightBytes == old(inFlightBytes) + if status == STATUS_OK then bytes else 0
      ensures status == STATUS_OK ==> WithinMaximum()
    {
      if maxInFlightBytes != 0 {
        if inFlightBytes >= maxInFlightBytes || bytes > maxInFlightBytes - inFlightBytes {
          return STATUS_BACK_PRESSURE;
        }
      }
      inFlightBytes := inFlightBytes + bytes;
      reservations := reservations + 1;
      reservedBytes := reservedBytes + bytes;
      status := STATUS_OK;
    }

    method Release(bytes: nat)
      requires Valid()
      modifies this`inFlightBytes, this`releasedBytes, this`clampFired
      ensures Valid() && (old(WithinMaximum()) ==> WithinMaximum())
      ensures inFlightBytes == if bytes > old(inFlightBytes) then 0 else old(inFlightBytes) - bytes
      ensures clampFired == (old(clampFired) || bytes > old(inFlightBytes))
    {
      clampFired := clampFired || bytes > inFlightBytes;
      var released := if bytes > inFlightBytes then inFlightBytes else bytes;
      inFlightBytes := inFlightBytes - released;
      releasedBytes := releasedBytes + released;
    }
  }

  /** The large-data channel takes the packet: it passes the registry's gate under that channel's key. */
  predicate LargeDataTakes(channels: ChannelRegistry, p: PacketEnvelope)
    reads channels
  {
    channels.ValidatePacket(p.(channelId := 0x1004, channelType := 0)).Ok()
  }

  /** The large-data channel is under pressure, or its window has no room for the bytes. */
  predicate NoRoom(channels: ChannelRegistry, payloadBytes: nat, options: ScheduleOptions)
    reads channels
  {
    || (LARGE_DATA in channels.entries
        && channels.entries[LARGE_DATA].snapshot.pressure.level !in {Healthy, BuildingQueue, Draining})
    || (options.windowBytes > 0 && options.inFlightBytes + payloadBytes > options.windowBytes)
    || (options.windowBytes > 0 && options.inFlightBytes >= options.windowBytes)
  }

  /** Where a response goes. A bulk clipboard response takes the large-data channel exactly when that channel takes it
      and there is room; without room it waits; and a channel that does not take it leaves the small-data channel,
      for as many bytes as the fallback allows, which is a mebibyte unless given. Anything else is small data. */
  lemma ScheduleExactly(channels: ChannelRegistry?, p: PacketEnvelope, payloadBytes: nat, options: ScheduleOptions)
    ensures var r := Schedule(channels, p, payloadBytes, options);
            var fallback := if options.smallDataFallbackBytes == 0 then 1048576 else options.smallDataFallbackBytes;
            && (r.usesLargeData <==> r.channel == ChannelKey(0x1004, 0))
            && (!r.usesLargeData <==> r.channel == ChannelKey(0x1001, 0))
            && if p.packetType != 0x1b || p.priority != 4 || channels == null then r.status == 0 && !r.usesLargeData
               else if LargeDataTakes(channels, p) then
                 (if NoRoom(channels, payloadBytes, options) then r.status == 110 && !r.usesLargeData
                  else r.status == 0 && r.usesLargeData)
               else
                 && !r.usesLargeData && (r.status == 0 <==> payloadBytes <= fallback)
                 && (payloadBytes > fallback ==> r.status == 103 || r.status == 111)
  {
    if channels != null {
      PassesExactly(channels, p.(channelId := 0x1004, channelType := 0));
    }
  }
}
