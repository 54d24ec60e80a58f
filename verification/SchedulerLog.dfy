/** The abstract view of the send queue: one log of queued packets in order of arrival, each tagged with
    its priority level. Every scheduler operation removes entries from the log or appends one to it. */
module SchedulerLog {
  import opened ProtocolTypes

  const PRIORITY_COUNT: nat := 6

  datatype DropPolicy = NoDrop | DropNewest | DropOldest | KeepLatestNonKeyFrame

  datatype SendOptions = SendOptions(priority: uint8, dropPolicy: DropPolicy, maxQueueDepth: nat)

  datatype EnqueueStatus = Queued | Dropped | Rejected

  /** A queued packet, the level it was put in, and the priority value it was given. */
  datatype Arrival = Arrival(level: nat, packet: PacketEnvelope, given: uint8)

  type Log = seq<Arrival>

  function PriorityIndex(priority: uint8): (index: nat)
    ensures index < PRIORITY_COUNT
  {
    if priority < PRIORITY_COUNT then priority else PRIORITY_COUNT - 1
  }

  // ----- what an operation looks for

  function ForKey(key: ChannelKey): Arrival -> bool {
    (a: Arrival) => a.packet.Key() == key
  }

  function NotForKey(key: ChannelKey): Arrival -> bool {
    (a: Arrival) => a.packet.Key() != key
  }

  function AtLevel(level: nat): Arrival -> bool {
    (a: Arrival) => a.level == level
  }

  function IsKeyFrame(): Arrival -> bool {
    (a: Arrival) => HasFlag(a.packet.flags, FLAG_KEY_FRAME)
  }

  function Oldest(level: nat, key: ChannelKey): Arrival -> bool {
    (a: Arrival) => a.level == level && a.packet.Key() == key
  }

  function Stale(level: nat, key: ChannelKey): Arrival -> bool {
    (a: Arrival) => a.level == level && a.packet.Key() == key && !HasFlag(a.packet.flags, FLAG_KEY_FRAME)
  }

  predicate SameIdentity(a: PacketEnvelope, b: PacketEnvelope) {
    && a.Key() == b.Key()
    && a.packetType == b.packetType
    && a.messageKind == b.messageKind
    && a.messageId == b.messageId
    && a.correlationId == b.correlationId
    && a.responseTo == b.responseTo
    && a.sequence == b.sequence
  }

  /** The queued packets a flush of `packet` accepts: its identity, at the level of its own priority field. */
  function Wanted(packet: PacketEnvelope): Arrival -> bool {
    (a: Arrival) => a.level == PriorityIndex(packet.priority) && SameIdentity(a.packet, packet)
  }

  // ----- sublogs

  function Keep(log: Log, f: Arrival -> bool): Log {
    if log == [] then [] else (if f(log[0]) then [log[0]] else []) + Keep(log[1..], f)
  }

  function OfKey(log: Log, key: ChannelKey): Log {
    Keep(log, ForKey(key))
  }

  function OfLevel(log: Log, level: nat): Log {
    Keep(log, AtLevel(level))
  }

  function KeyFrames(log: Log): Log {
    Keep(log, IsKeyFrame())
  }

  function Packets(log: Log): (s: seq<PacketEnvelope>)
    ensures |s| == |log| && forall i :: 0 <= i < |s| ==> s[i] == log[i].packet
  {
    seq(|log|, i requires 0 <= i < |log| => log[i].packet)
  }

  function RemoveAt<T>(s: seq<T>, i: nat): (r: seq<T>)
    requires i < |s|
    ensures |r| == |s| - 1
  {
    s[..i] + s[i + 1..]
  }

  /** Position of the earliest entry that `want` accepts; the length of the log when there is none. */
  function First(log: Log, want: Arrival -> bool): (i: nat)
    ensures i <= |log|
    ensures i < |log| ==> want(log[i])
    ensures forall j :: 0 <= j < i ==> !want(log[j])
  {
    if log == [] then 0 else if want(log[0]) then 0 else 1 + First(log[1..], want)
  }

  // ----- operations

  datatype Admission = Admission(log: Log, status: EnqueueStatus, droppedPackets: nat)

  /** Make room by removing the earliest entry accepted by `victim`, or reject. */
  function Evict(log: Log, arrival: Arrival, victim: Arrival -> bool): Admission {
    var i := First(log, victim);
    if i < |log| then Admission(RemoveAt(log, i) + [arrival], Queued, 1) else Admission(log, Rejected, 0)
  }

  function Admit(log: Log, packet: PacketEnvelope, options: SendOptions): Admission {
    var key := packet.Key();
    var level := PriorityIndex(options.priority);
    if options.maxQueueDepth > 0 && |OfKey(log, key)| >= options.maxQueueDepth then
      match options.dropPolicy
      case DropNewest => Admission(log, Dropped, 1)
      case DropOldest => Evict(log, Arrival(level, packet, options.priority), Oldest(level, key))
      case KeepLatestNonKeyFrame =>
        Evict(log, Arrival(level, packet, options.priority), Stale(level, key))
      case NoDrop => Admission(log, Rejected, 0)
    else
      Admission(log + [Arrival(level, packet, options.priority)], Queued, 0)
  }

  /** The entry to send next: no entry is more urgent, and no earlier one is as urgent. */
  ghost predicate IsNext(log: Log, i: nat) {
    && i < |log|
    && (forall j :: 0 <= j < |log| ==> log[i].level <= log[j].level)
    && (forall j :: 0 <= j < i ==> log[i].level < log[j].level)
  }

  function TakeIndex(log: Log, packet: PacketEnvelope): nat {
    First(log, Wanted(packet))
  }

  function Drain(log: Log, key: ChannelKey): Log {
    Keep(log, NotForKey(key))
  }

  // ----- sublogs of changed logs

  lemma {:induction false} KeepConcat(s: Log, t: Log, f: Arrival -> bool)
    ensures Keep(s + t, f) == Keep(s, f) + Keep(t, f)
  {
    if s == [] {
      assert s + t == t;
    } else {
      var head := if f(s[0]) then [s[0]] else [];
      assert (s + t)[0] == s[0] && (s + t)[1..] == s[1..] + t;
      assert Keep(s, f) == head + Keep(s[1..], f);
      assert Keep(s + t, f) == head + Keep(s[1..] + t, f);
      KeepConcat(s[1..], t, f);
    }
  }

  lemma KeepOfAppend(log: Log, a: Arrival, f: Arrival -> bool)
    ensures Keep(log + [a], f) == Keep(log, f) + if f(a) then [a] else []
  {
    KeepConcat(log, [a], f);
    assert [a][1..] == [];
  }

  /** Removing an entry from the log removes it from each sublog it is in and leaves the others alone. */
  lemma KeepOfRemove(log: Log, i: nat, f: Arrival -> bool)
    requires i < |log|
    ensures var r := |Keep(log[..i], f)|;
            if f(log[i]) then
              r < |Keep(log, f)| && Keep(log, f)[r] == log[i] && Keep(log, f)[..r] == Keep(log[..i], f)
              && Keep(RemoveAt(log, i), f) == RemoveAt(Keep(log, f), r)
            else Keep(RemoveAt(log, i), f) == Keep(log, f)
  {
    assert log == log[..i] + ([log[i]] + log[i + 1..]);
    KeepConcat(log[..i], [log[i]] + log[i + 1..], f);
    KeepConcat([log[i]], log[i + 1..], f);
    KeepConcat(log[..i], log[i + 1..], f);
    assert [log[i]][1..] == [];
  }

  lemma {:induction false} KeepOnlyWanted(log: Log, f: Arrival -> bool)
    ensures forall a :: a in Keep(log, f) <==> a in log && f(a)
  {
    if log != [] {
      KeepOnlyWanted(log[1..], f);
      assert log == [log[0]] + log[1..];
    }
  }

  lemma {:induction false} KeepSame(log: Log, f: Arrival -> bool, g: Arrival -> bool)
    requires forall a :: a in log ==> f(a) == g(a)
    ensures Keep(log, f) == Keep(log, g)
  {
    if log != [] {
      KeepSame(log[1..], f, g);
    }
  }

  lemma {:induction false} KeepKeep(log: Log, f: Arrival -> bool, g: Arrival -> bool, both: Arrival -> bool)
    requires forall a :: both(a) == (f(a) && g(a))
    ensures Keep(Keep(log, f), g) == Keep(log, both)
  {
    if log != [] {
      KeepKeep(log[1..], f, g, both);
      KeepConcat(if f(log[0]) then [log[0]] else [], Keep(log[1..], f), g);
    }
  }

  lemma {:induction false} KeepSplits(log: Log, f: Arrival -> bool, g: Arrival -> bool, either: Arrival -> bool)
    requires forall a :: either(a) == (f(a) || g(a)) && !(f(a) && g(a))
    ensures |Keep(log, f)| + |Keep(log, g)| == |Keep(log, either)|
  {
    if log != [] {
      KeepSplits(log[1..], f, g, either);
    }
  }

  // ----- bounds

  lemma EvictKeepsOthers(log: Log, arrival: Arrival, victim: Arrival -> bool, f: Arrival -> bool)
    requires forall a :: victim(a) ==> !f(a)
    ensures Keep(Evict(log, arrival, victim).log, f)
         == Keep(log, f) + if Evict(log, arrival, victim).status == Queued && f(arrival) then [arrival] else []
  {
    var i := First(log, victim);
    if i < |log| {
      KeepOfRemove(log, i, f);
      KeepOfAppend(RemoveAt(log, i), arrival, f);
    }
  }

  lemma EvictKeepsCount(log: Log, arrival: Arrival, victim: Arrival -> bool, key: ChannelKey)
    requires forall a :: victim(a) ==> a.packet.Key() == key
    requires arrival.packet.Key() == key
    ensures |OfKey(Evict(log, arrival, victim).log, key)| == |OfKey(log, key)|
  {
    var i := First(log, victim);
    var f := ForKey(key);
    if i < |log| {
      KeepOfRemove(log, i, f);
      KeepOfAppend(RemoveAt(log, i), arrival, f);
    }
  }

  /** Admission never takes the packet's channel above the larger of its old count and the depth limit;
      it grows that channel by one packet less the one it drops, or leaves the log as it was. */
  lemma AdmitBoundsDepth(log: Log, packet: PacketEnvelope, options: SendOptions)
    ensures var r := Admit(log, packet, options);
            var before, after := |OfKey(log, packet.Key())|, |OfKey(r.log, packet.Key())|;
            && (options.maxQueueDepth > 0 ==> after <= before || after <= options.maxQueueDepth)
            && (r.status == Queued ==> after + r.droppedPackets == before + 1)
            && (r.status != Queued ==> r.log == log)
  {
    hide HasFlag, Keep;
    var key, level := packet.Key(), PriorityIndex(options.priority);
    KeepOfAppend(log, Arrival(level, packet, options.priority), ForKey(key));
    EvictKeepsCount(log, Arrival(level, packet, options.priority), Oldest(level, key), key);
    EvictKeepsCount(log, Arrival(level, packet, options.priority), Stale(level, key), key);
  }

  lemma AdmitKeepsOtherChannels(log: Log, packet: PacketEnvelope, options: SendOptions, other: ChannelKey)
    requires other != packet.Key()
    ensures OfKey(Admit(log, packet, options).log, other) == OfKey(log, other)
  {
    hide HasFlag, Keep;
    var key, level := packet.Key(), PriorityIndex(options.priority);
    KeepOfAppend(log, Arrival(level, packet, options.priority), ForKey(other));
    EvictKeepsOthers(log, Arrival(level, packet, options.priority), Oldest(level, key), ForKey(other));
    EvictKeepsOthers(log, Arrival(level, packet, options.priority), Stale(level, key), ForKey(other));
  }

  /** Only DropOldest ever evicts a key frame: otherwise the queued key frames stay, in order, and at most
      the new packet joins them. */
  lemma AdmitKeepsKeyFrames(log: Log, packet: PacketEnvelope, options: SendOptions)
    requires options.dropPolicy != DropOldest
    ensures KeyFrames(log) <= KeyFrames(Admit(log, packet, options).log)
  {
    hide HasFlag, Keep;
    var key, level := packet.Key(), PriorityIndex(options.priority);
    KeepOfAppend(log, Arrival(level, packet, options.priority), IsKeyFrame());
    EvictKeepsOthers(log, Arrival(level, packet, options.priority), Stale(level, key), IsKeyFrame());
  }

  /** An entry's level is the priority value it was given, and 5, the least urgent, when that is out of range. */
  predicate Levelled(a: Arrival) {
    a.level == if a.given <= 5 then a.given else 5
  }

  /** Entry `i` is to be sent before entry `j`: it was given the more urgent priority, a smaller value, or an equal one
      and came first. Values above 5 all count as 5. */
  predicate Precedes(log: Log, i: nat, j: nat)
    requires i < |log| && j < |log|
  {
    var a, b := Min(log[i].given, 5), Min(log[j].given, 5);
    a < b || (a == b && i < j)
  }

  ghost predicate PrecedesAll(log: Log, i: nat) {
    i < |log| && forall j :: 0 <= j < |log| && j != i ==> Precedes(log, i, j)
  }

  /** The next packet to send is the one that precedes every other queued packet. */
  lemma NextPrecedesAll(log: Log, i: nat)
    requires i < |log| && forall a :: a in log ==> Levelled(a)
    ensures IsNext(log, i) <==> PrecedesAll(log, i)
  {
    assert forall j :: 0 <= j < |log| ==> log[j] in log;
    assert forall j :: 0 <= j < |log| ==> log[j].level == Min(log[j].given, 5);
    if IsNext(log, i) {
      forall j | 0 <= j < |log| && j != i ensures Precedes(log, i, j) {
        assert log[i].level <= log[j].level;
      }
    }
    if PrecedesAll(log, i) {
      forall j | 0 <= j < |log| ensures log[i].level <= log[j].level && (j < i ==> log[i].level < log[j].level) {
        assert j != i ==> Precedes(log, i, j);
      }
    }
  }

  /** An admitted packet is the last entry, with the priority value it was given, and every entry stays levelled. */
  lemma AdmittedIsLevelled(log: Log, packet: PacketEnvelope, options: SendOptions)
    requires forall a :: a in log ==> Levelled(a)
    ensures var r := Admit(log, packet, options);
            && (forall a :: a in r.log ==> Levelled(a))
            && (r.status == Queued ==>
                  r.log != [] && r.log[|r.log| - 1].packet == packet && r.log[|r.log| - 1].given == options.priority)
  {
    hide Keep, First, HasFlag;
  }

  // ----- the drop policies and the identity of a packet, spelled out

  /** Entry `i` stands in the way of `packet`: it is queued at the level of that priority, on the packet's channel. */
  predicate InTheWay(log: Log, i: nat, packet: PacketEnvelope, priority: uint8)
    requires i < |log|
  {
    && log[i].packet.channelId == packet.channelId && log[i].packet.channelType == packet.channelType
    && log[i].level == Min(priority, 5)
  }

  predicate NonKeyInTheWay(log: Log, i: nat, packet: PacketEnvelope, priority: uint8)
    requires i < |log|
  {
    InTheWay(log, i, packet, priority) && log[i].packet.flags / 16 % 2 == 0
  }

  /** Entry `i` gave way to `packet`. */
  ghost predicate GaveWay(log: Log, i: nat, packet: PacketEnvelope, options: SendOptions, r: Admission) {
    && i < |log| && r.status == Queued && r.droppedPackets == 1 && |r.log| == |log|
    && r.log[..|log| - 1] == log[..i] + log[i + 1..] && r.log[|log| - 1].packet == packet
  }

  ghost predicate TurnedAway(log: Log, r: Admission, status: EnqueueStatus, droppedPackets: nat) {
    r == Admission(log, status, droppedPackets)
  }

  /** What each drop policy does when the channel is full; below the limit, or without one, every packet is queued. */
  lemma PoliciesExactly(log: Log, packet: PacketEnvelope, options: SendOptions)
    ensures var r := Admit(log, packet, options);
            var full := options.maxQueueDepth > 0 && |OfKey(log, packet.Key())| >= options.maxQueueDepth;
            && (!full ==> r.status == Queued && r.droppedPackets == 0 && |r.log| == |log| + 1 && r.log[..|log|] == log)
            && (full && options.dropPolicy == DropNewest ==> TurnedAway(log, r, Dropped, 1))
            && (full && options.dropPolicy == NoDrop ==> TurnedAway(log, r, Rejected, 0))
            && (full && options.dropPolicy == DropOldest ==>
                  if exists i :: 0 <= i < |log| && InTheWay(log, i, packet, options.priority) then
                    exists i :: 0 <= i < |log| && InTheWay(log, i, packet, options.priority)
                      && GaveWay(log, i, packet, options, r)
                      && forall j :: 0 <= j < i ==> !InTheWay(log, j, packet, options.priority)
                  else TurnedAway(log, r, Rejected, 0))
            && (full && options.dropPolicy == KeepLatestNonKeyFrame ==>
                  if exists i :: 0 <= i < |log| && NonKeyInTheWay(log, i, packet, options.priority) then
                    exists i :: 0 <= i < |log| && NonKeyInTheWay(log, i, packet, options.priority)
                      && GaveWay(log, i, packet, options, r)
                      && forall j :: 0 <= j < i ==> !NonKeyInTheWay(log, j, packet, options.priority)
                  else TurnedAway(log, r, Rejected, 0))
  {
    hide Keep;
    var key, level := packet.Key(), PriorityIndex(options.priority);
    var r := Admit(log, packet, options);
    if options.dropPolicy == DropOldest {
      EvictsFirst(log, packet, options, Oldest(level, key));
    }
    if options.dropPolicy == KeepLatestNonKeyFrame {
      EvictsFirst(log, packet, options, Stale(level, key));
    }
    var oldest, stale := Oldest(level, key), Stale(level, key);
    assert forall i :: 0 <= i < |log| ==> oldest(log[i]) == InTheWay(log, i, packet, options.priority);
    assert forall i :: 0 <= i < |log| ==> stale(log[i]) == NonKeyInTheWay(log, i, packet, options.priority);
  }

  lemma EvictsFirst(log: Log, packet: PacketEnvelope, options: SendOptions, victim: Arrival -> bool)
    ensures var a := Arrival(PriorityIndex(options.priority), packet, options.priority);
            var r, i := Evict(log, a, victim), First(log, victim);
            if i < |log| then GaveWay(log, i, packet, options, r) else TurnedAway(log, r, Rejected, 0)
  {
    hide First, PriorityIndex;
  }

  /** The fields by which a packet is found again. */
  predicate SameFields(a: PacketEnvelope, b: PacketEnvelope) {
    && a.channelId == b.channelId && a.channelType == b.channelType && a.packetType == b.packetType
    && a.messageKind == b.messageKind && a.messageId == b.messageId && a.correlationId == b.correlationId
    && a.responseTo == b.responseTo && a.sequence == b.sequence
  }

  /** A packet is looked for at the level of its own priority and is the first there with its eight fields. */
  lemma TakenHasSameFields(log: Log, p: PacketEnvelope)
    ensures var k := TakeIndex(log, p);
            && (k < |log| ==> SameFields(log[k].packet, p) && log[k].level == Min(p.priority, 5))
            && (forall j :: 0 <= j < k && j < |log| ==>
                !(SameFields(log[j].packet, p) && log[j].level == Min(p.priority, 5)))
  {
    hide First;
    var wanted := Wanted(p);
    assert forall j :: 0 <= j < |log| ==>
             wanted(log[j]) == (SameFields(log[j].packet, p) && log[j].level == Min(p.priority, 5));
  }
}
