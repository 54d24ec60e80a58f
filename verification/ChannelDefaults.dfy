/** The send options each packet type gets by default, and what they guarantee about queue sizes. */
module ChannelDefaults {
  import opened ProtocolTypes
  import opened SchedulerLog

  predicate IsBulkPacket(packetType: uint16) {
    packetType == PACKET_FILESYSTEM || packetType == PACKET_FILESYSTEM_IRP || packetType == PACKET_PRINTER
  }

  function DefaultSendOptions(p: PacketEnvelope): SendOptions {
    if p.packetType == PACKET_HEARTBEAT || p.packetType == PACKET_CHANNEL_INIT || p.packetType == PACKET_EXCHANGE then
      SendOptions(PRIORITY_CRITICAL, NoDrop, 256)
    else if p.packetType == PACKET_VIDEO then
      SendOptions(PRIORITY_REALTIME, KeepLatestNonKeyFrame, 2)
    else if p.packetType == PACKET_CLIPBOARD && p.priority == PRIORITY_BULK then
      SendOptions(PRIORITY_BULK, NoDrop, 512)
    else if p.packetType in {PACKET_PAYLOAD_ACK, PACKET_MOUSE, PACKET_KEYBOARD, PACKET_CLIPBOARD,
                             PACKET_TOUCHSCREEN, PACKET_GAMEPAD} then
      SendOptions(PRIORITY_INTERACTIVE, NoDrop, 1024)
    else if IsBulkPacket(p.packetType) then
      SendOptions(PRIORITY_BULK, NoDrop, 512)
    else
      SendOptions(PRIORITY_NORMAL, NoDrop, 1024)
  }

  /** What a client of the scheduler can do to the log; any packet may leave at any time. */
  datatype Op = Offer(packet: PacketEnvelope) | Leave(index: nat) | DrainChannel(key: ChannelKey)

  function Step(log: Log, op: Op): Log {
    match op
    case Offer(p) => Admit(log, p, DefaultSendOptions(p)).log
    case Leave(i) => if i < |log| then RemoveAt(log, i) else log
    case DrainChannel(key) => Drain(log, key)
  }

  function RunFrom(log: Log, ops: seq<Op>): Log {
    if ops == [] then log else Step(RunFrom(log, ops[..|ops| - 1]), ops[|ops| - 1])
  }

  function Run(ops: seq<Op>): Log {
    RunFrom([], ops)
  }

  lemma StepBound(log: Log, op: Op, key: ChannelKey, bound: nat)
    requires |OfKey(log, key)| <= bound
    requires op.Offer? && op.packet.Key() == key ==> DefaultSendOptions(op.packet).maxQueueDepth <= bound
    ensures |OfKey(Step(log, op), key)| <= bound
  {
    hide Keep, Admit, HasFlag;
    match op
    case Offer(p) =>
      if p.Key() == key {
        AdmitBoundsDepth(log, p, DefaultSendOptions(p));
      } else {
        AdmitKeepsOtherChannels(log, p, DefaultSendOptions(p), key);
      }
    case Leave(i) =>
      if i < |log| {
        KeepOfRemove(log, i, ForKey(key));
      }
    case DrainChannel(drained) =>
      var kept := (a: Arrival) => NotForKey(drained)(a) && ForKey(key)(a);
      KeepKeep(log, NotForKey(drained), ForKey(key), kept);
      KeepKeep(log, ForKey(key), NotForKey(drained), kept);
      KeepShrinks(OfKey(log, key), NotForKey(drained));
  }

  lemma {:induction false} KeepShrinks(log: Log, f: Arrival -> bool)
    ensures |Keep(log, f)| <= |log|
  {
    if log != [] {
      KeepShrinks(log[1..], f);
    }
  }

  lemma {:induction false} RunBound(ops: seq<Op>, key: ChannelKey, bound: nat)
    requires forall op :: op in ops && op.Offer? && op.packet.Key() == key ==>
               DefaultSendOptions(op.packet).maxQueueDepth <= bound
    ensures |OfKey(Run(ops), key)| <= bound
  {
    if ops != [] {
      RunBound(ops[..|ops| - 1], key, bound);
      StepBound(Run(ops[..|ops| - 1]), ops[|ops| - 1], key, bound);
    }
  }

  /** Over any run of sends with default options, no channel ever holds more than 1024 packets, and a
      channel offered only video never holds more than two. */
  lemma DefaultsBoundEveryChannel(ops: seq<Op>, key: ChannelKey)
    ensures |OfKey(Run(ops), key)| <= 1024
    ensures (forall op :: op in ops && op.Offer? && op.packet.Key() == key ==> op.packet.packetType == PACKET_VIDEO)
            ==> |OfKey(Run(ops), key)| <= 2
  {
    RunBound(ops, key, 1024);
    if forall op :: op in ops && op.Offer? && op.packet.Key() == key ==> op.packet.packetType == PACKET_VIDEO {
      RunBound(ops, key, 2);
    }
  }

  // ----- key frames

  /** The entries a client takes out itself, by a flush or a drain. */
  function Departs(log: Log, op: Op): Log {
    match op
    case Offer(_) => []
    case Leave(i) => if i < |log| then [log[i]] else []
    case DrainChannel(key) => OfKey(log, key)
  }

  function Departures(log: Log, ops: seq<Op>): Log {
    if ops == [] then []
    else Departures(log, ops[..|ops| - 1]) + Departs(RunFrom(log, ops[..|ops| - 1]), ops[|ops| - 1])
  }

  lemma {:induction false} KeepCounts(log: Log, f: Arrival -> bool, a: Arrival)
    ensures multiset(Keep(log, f))[a] == if f(a) then multiset(log)[a] else 0
  {
    if log != [] {
      assert log == [log[0]] + log[1..];
      KeepCounts(log[1..], f, a);
    }
  }

  lemma OfferKeepsKeyFrames(log: Log, p: PacketEnvelope)
    ensures KeyFrames(log) <= KeyFrames(Admit(log, p, DefaultSendOptions(p)).log)
  {
    AdmitKeepsKeyFrames(log, p, DefaultSendOptions(p));
  }

  /** One operation loses no key frame it does not hand over. */
  lemma StepKeepsKeyFrame(log: Log, op: Op, a: Arrival)
    requires IsKeyFrame()(a)
    ensures multiset(log)[a] <= multiset(Step(log, op))[a] + multiset(Departs(log, op))[a]
  {
    hide Keep, Admit, HasFlag;
    match op
    case Offer(p) =>
      OfferKeepsKeyFrames(log, p);
      KeepCounts(log, IsKeyFrame(), a);
      KeepCounts(Step(log, op), IsKeyFrame(), a);
      var before, after := KeyFrames(log), KeyFrames(Step(log, op));
      assert after == before + after[|before|..];
    case Leave(i) =>
      if i < |log| {
        assert log == log[..i] + [log[i]] + log[i + 1..];
      }
    case DrainChannel(key) =>
      KeepCounts(log, NotForKey(key), a);
      KeepCounts(log, ForKey(key), a);
  }

  /** Over any run with default options no queued key frame is ever evicted: each is still queued at the end, or
      was taken out by a flush or a drain. */
  lemma {:induction false} DefaultsKeepKeyFrames(log: Log, ops: seq<Op>, a: Arrival)
    requires IsKeyFrame()(a)
    ensures multiset(log)[a] <= multiset(RunFrom(log, ops))[a] + multiset(Departures(log, ops))[a]
  {
    hide Step, Departs, IsKeyFrame;
    if ops != [] {
      DefaultsKeepKeyFrames(log, ops[..|ops| - 1], a);
      StepKeepsKeyFrame(RunFrom(log, ops[..|ops| - 1]), ops[|ops| - 1], a);
    }
  }

  /** The default options by packet type, from the wire values of the types. */
  lemma DefaultsByType(p: PacketEnvelope)
    ensures var o, t := DefaultSendOptions(p), p.packetType as int;
            && (t in {0x01, 0x02, 0x1a} <==> o.priority == 0)
            && (t == 0x14 <==> o.priority == 1)
            && (t in {0x18, 0x11, 0x12, 0x23, 0x24} || (t == 0x1b && p.priority != 4) <==> o.priority == 2)
            && (t in {0x1d, 0x1e, 0x20} || (t == 0x1b && p.priority == 4) <==> o.priority == 4)
            && o.priority in {0, 1, 2, 3, 4}
            && o.dropPolicy == (if t == 0x14 then KeepLatestNonKeyFrame else NoDrop)
            && o.maxQueueDepth == (match o.priority case 0 => 256 case 1 => 2 case 4 => 512 case _ => 1024)
  {
  }
}
