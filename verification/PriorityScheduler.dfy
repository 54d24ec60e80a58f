/** Six bounded first-in first-out queues, one per priority, and their agreement with the arrival log. */
module PriorityScheduler {
  import opened ProtocolTypes
  import opened SchedulerLog

  datatype PressureLevel = Healthy | BuildingQueue | Congested | Draining | PressureClosed | PressureFailed

  datatype ChannelPressure = ChannelPressure(level: PressureLevel, queuedPackets: nat)

  datatype EnqueueResult = EnqueueResult(status: EnqueueStatus, droppedPackets: nat, pressure: ChannelPressure)

  function PressureOf(queuedPackets: nat, maxQueueDepth: nat): ChannelPressure {
    if maxQueueDepth > 0 && queuedPackets >= maxQueueDepth then ChannelPressure(Congested, queuedPackets)
    else if queuedPackets > 0 then ChannelPressure(BuildingQueue, queuedPackets)
    else ChannelPressure(Healthy, queuedPackets)
  }

  /** Each queue holds the packets of its level in order of arrival. */
  ghost predicate Agree(queues: seq<seq<PacketEnvelope>>, log: Log) {
    && |queues| == PRIORITY_COUNT
    && (forall a :: a in log ==> a.level < PRIORITY_COUNT && Levelled(a))
    && (forall l :: 0 <= l < PRIORITY_COUNT ==> queues[l] == Packets(OfLevel(log, l)))
  }

  function CountIn(queue: seq<PacketEnvelope>, key: ChannelKey): nat {
    if queue == [] then 0 else CountIn(queue[..|queue| - 1], key) + if queue[|queue| - 1].Key() == key then 1 else 0
  }

  function CountBelow(queues: seq<seq<PacketEnvelope>>, key: ChannelKey, n: nat): nat
    requires n <= |queues|
  {
    if n == 0 then 0 else CountBelow(queues, key, n - 1) + CountIn(queues[n - 1], key)
  }

  function Without(queue: seq<PacketEnvelope>, key: ChannelKey): seq<PacketEnvelope> {
    if queue == [] then []
    else Without(queue[..|queue| - 1], key) + if queue[|queue| - 1].Key() == key then [] else [queue[|queue| - 1]]
  }

  /** What is wanted is told by the level and the packet alone. */
  ghost predicate Discerning(want: Arrival -> bool, level: nat) {
    && (forall a :: want(a) ==> a.level == level)
    && (forall a: Arrival, given: uint8 :: want(a) == want(a.(given := given)))
  }

  class PriorityScheduler {
    var queues: seq<seq<PacketEnvelope>>
    ghost var arrivals: Log
    ghost var admitted: multiset<PacketEnvelope>
    ghost var removed: multiset<PacketEnvelope>

    ghost predicate Valid()
      reads this
    {
      Agree(queues, arrivals) && multiset(Packets(arrivals)) + removed == admitted
    }

    constructor ()
      ensures Valid() && arrivals == [] && admitted == multiset{} && removed == multiset{}
    {
      queues := [[], [], [], [], [], []];
      arrivals, admitted, removed := [], multiset{}, multiset{};
    }

    method QueuedCount(key: ChannelKey) returns (count: nat)
      requires Valid()
      ensures count == |OfKey(arrivals, key)|
    {
      hide Keep, Packets;
      count := 0;
      for l := 0 to PRIORITY_COUNT
        invariant count == CountBelow(queues, key, l)
      {
        ghost var before := count;
        for i := 0 to |queues[l]|
          invariant count == before + CountIn(queues[l][..i], key)
        {
          assert queues[l][..i + 1][..i] == queues[l][..i];
          if queues[l][i].Key() == key {
            count := count + 1;
          }
        }
        assert queues[l][..|queues[l]|] == queues[l];
      }
      CountsAddUp(queues, arrivals, key);
    }

    method ComputePressure(key: ChannelKey, maxQueueDepth: nat) returns (pressure: ChannelPressure)
      requires Valid()
      ensures pressure == PressureOf(|OfKey(arrivals, key)|, maxQueueDepth)
    {
      var queued := QueuedCount(key);
      pressure := ChannelPressure(Healthy, queued);
      if queued > 0 {
        pressure := pressure.(level := BuildingQueue);
      }
      if maxQueueDepth > 0 && queued >= maxQueueDepth {
        pressure := pressure.(level := Congested);
      }
    }

    /** std::find_if over one level's queue. */
    method FindInLevel(level: nat, want: Arrival -> bool) returns (i: nat)
      requires Valid() && level < PRIORITY_COUNT && Discerning(want, level)
      ensures var k := First(arrivals, want);
              && i <= |queues[level]| && (i < |queues[level]| <==> k < |arrivals|)
              && (k < |arrivals| ==> i == |OfLevel(arrivals[..k], level)| && queues[level][i] == arrivals[k].packet)
    {
      i := 0;
      while i < |queues[level]| && !want(Arrival(level, queues[level][i], 0))
        invariant i <= |queues[level]|
        invariant forall j :: 0 <= j < i ==> !want(Arrival(level, queues[level][j], 0))
      {
        i := i + 1;
      }
      FirstInLevel(arrivals, level, want, i);
    }

    /** Erase the packet at index `i` of a level's queue; `k` is its place in the log. */
    method Erase(level: nat, i: nat, ghost k: nat)
      requires Valid() && level < PRIORITY_COUNT
      requires k < |arrivals| && arrivals[k].level == level && i == |OfLevel(arrivals[..k], level)|
      requires i < |queues[level]|
      modifies this
      ensures Valid() && admitted == old(admitted)
      ensures arrivals == RemoveAt(old(arrivals), k)
      ensures removed == old(removed) + multiset{old(arrivals)[k].packet}
    {
      EraseAgrees(queues, arrivals, level, k);
      queues := queues[level := RemoveAt(queues[level], i)];
      removed := removed + multiset{arrivals[k].packet};
      arrivals := RemoveAt(arrivals, k);
    }

    method Drop(level: nat, want: Arrival -> bool) returns (dropped: bool)
      requires Valid() && level < PRIORITY_COUNT && Discerning(want, level)
      modifies this
      ensures Valid() && admitted == old(admitted)
      ensures var k := First(old(arrivals), want);
              && (dropped <==> k < |old(arrivals)|)
              && arrivals == (if dropped then RemoveAt(old(arrivals), k) else old(arrivals))
    {
      var i := FindInLevel(level, want);
      if i == |queues[level]| {
        return false;
      }
      Erase(level, i, First(arrivals, want));
      return true;
    }

    method PushBack(level: nat, packet: PacketEnvelope, ghost given: uint8)
      requires Valid() && Levelled(Arrival(level, packet, given))
      modifies this
      ensures Valid() && removed == old(removed)
      ensures arrivals == old(arrivals) + [Arrival(level, packet, given)]
              && admitted == old(admitted) + multiset{packet}
    {
      hide Keep;
      AppendAgrees(queues, arrivals, Arrival(level, packet, given));
      queues := queues[level := queues[level] + [packet]];
      arrivals := arrivals + [Arrival(level, packet, given)];
      admitted := admitted + multiset{packet};
    }

    method Enqueue(packet: PacketEnvelope, options: SendOptions) returns (result: EnqueueResult)
      requires Valid()
      modifies this
      ensures Valid()
      ensures var r := Admit(old(arrivals), packet, options);
              && arrivals == r.log
              && result == EnqueueResult(r.status, r.droppedPackets,
                                         PressureOf(|OfKey(arrivals, packet.Key())|, options.maxQueueDepth))
              && admitted == old(admitted) + (if r.status == Queued then multiset{packet} else multiset{})
    {
      hide Keep, First, HasFlag, PressureOf, Agree, Packets;
      var key := packet.Key();
      var level := PriorityIndex(options.priority);
      var queuedForChannel := QueuedCount(key);
      var dropped := 0;
      if options.maxQueueDepth > 0 && queuedForChannel >= options.maxQueueDepth {
        var canQueue := false;
        match options.dropPolicy {
          case DropNewest =>
            var pressure := ComputePressure(key, options.maxQueueDepth);
            return EnqueueResult(Dropped, 1, pressure);
          case DropOldest =>
            canQueue := Drop(level, Oldest(level, key));
          case KeepLatestNonKeyFrame =>
            canQueue := Drop(level, Stale(level, key));
          case NoDrop =>
        }
        dropped := if canQueue then 1 else 0;
        if !canQueue {
          var pressure := ComputePressure(key, options.maxQueueDepth);
          return EnqueueResult(Rejected, dropped, pressure);
        }
      }
      PushBack(level, packet, options.priority);
      var pressure := ComputePressure(key, options.maxQueueDepth);
      result := EnqueueResult(Queued, dropped, pressure);
    }

    method NextPacket() returns (packet: Option<PacketEnvelope>)
      requires Valid()
      modifies this
      ensures Valid() && admitted == old(admitted)
      ensures packet == None ==> old(arrivals) == [] && arrivals == []
      ensures packet.Some? ==> exists k: nat :: IsNext(old(arrivals), k) && packet == Some(old(arrivals)[k].packet)
                                                && arrivals == RemoveAt(old(arrivals), k)
      ensures packet.Some? ==> exists k: nat :: PrecedesAll(old(arrivals), k) && packet == Some(old(arrivals)[k].packet)
    {
      hide Keep, First;
      for level := 0 to PRIORITY_COUNT
        invariant forall l :: 0 <= l < level ==> queues[l] == []
      {
        if queues[level] != [] {
          packet := Some(queues[level][0]);
          FirstInLevel(arrivals, level, AtLevel(level), 0);
          ghost var k := First(arrivals, AtLevel(level));
          EmptyLevels(queues, arrivals, level);
          assert IsNext(arrivals, k);
          NextPrecedesAll(arrivals, k);
          Erase(level, 0, k);
          return;
        }
      }
      EmptyLevels(queues, arrivals, PRIORITY_COUNT);
      packet := None;
    }

    method TakePacket(packet: PacketEnvelope) returns (found: Option<PacketEnvelope>)
      requires Valid()
      modifies this
      ensures Valid() && admitted == old(admitted)
      ensures var k := TakeIndex(old(arrivals), packet);
              if k < |old(arrivals)| then found == Some(old(arrivals)[k].packet)
                && arrivals == RemoveAt(old(arrivals), k)
              else found == None && arrivals == old(arrivals)
    {
      var level := PriorityIndex(packet.priority);
      var i := FindInLevel(level, Wanted(packet));
      if i == |queues[level]| {
        return None;
      }
      found := Some(queues[level][i]);
      Erase(level, i, TakeIndex(arrivals, packet));
    }

    method DrainKey(key: ChannelKey)
      requires Valid()
      modifies this
      ensures Valid() && admitted == old(admitted)
      ensures arrivals == Drain(old(arrivals), key)
      ensures removed == old(removed) + multiset(Packets(OfKey(old(arrivals), key)))
    {
      ghost var before := queues;
      for l := 0 to PRIORITY_COUNT
        invariant |queues| == PRIORITY_COUNT
        invariant forall m :: 0 <= m < PRIORITY_COUNT ==>
                    queues[m] == if m < l then Without(before[m], key) else before[m]
        invariant arrivals == old(arrivals) && admitted == old(admitted) && removed == old(removed)
      {
        var kept := [];
        for i := 0 to |queues[l]|
          invariant kept == Without(queues[l][..i], key)
        {
          assert queues[l][..i + 1][..i] == queues[l][..i];
          if queues[l][i].Key() != key {
            kept := kept + [queues[l][i]];
          }
        }
        assert queues[l][..|queues[l]|] == queues[l];
        queues := queues[l := kept];
      }
      DrainAgrees(before, arrivals, key);
      removed := removed + multiset(Packets(OfKey(arrivals, key)));
      arrivals := Drain(arrivals, key);
    }
  }

  // ----- queues and log

  lemma {:induction false} CountInPackets(log: Log, key: ChannelKey)
    ensures CountIn(Packets(log), key) == |OfKey(log, key)|
  {
    if log != [] {
      var init := log[..|log| - 1];
      assert Packets(log)[..|log| - 1] == Packets(init);
      assert log == init + [log[|log| - 1]];
      KeepOfAppend(init, log[|log| - 1], ForKey(key));
      CountInPackets(init, key);
    }
  }

  function ForKeyBelow(key: ChannelKey, n: nat): Arrival -> bool {
    (a: Arrival) => a.packet.Key() == key && a.level < n
  }

  function ForKeyAt(key: ChannelKey, level: nat): Arrival -> bool {
    (a: Arrival) => a.packet.Key() == key && a.level == level
  }

  /** A channel's packets, counted level by level. */
  lemma {:induction false} CountsBelow(queues: seq<seq<PacketEnvelope>>, log: Log, key: ChannelKey, n: nat)
    requires Agree(queues, log) && n <= PRIORITY_COUNT
    ensures CountBelow(queues, key, n) == |Keep(log, ForKeyBelow(key, n))|
  {
    if n == 0 {
      KeepSplits(log, ForKeyBelow(key, 0), ForKeyBelow(key, 0), ForKeyBelow(key, 0));
    } else {
      CountsBelow(queues, log, key, n - 1);
      CountInPackets(OfLevel(log, n - 1), key);
      KeepKeep(log, AtLevel(n - 1), ForKey(key), ForKeyAt(key, n - 1));
      KeepSplits(log, ForKeyBelow(key, n - 1), ForKeyAt(key, n - 1), ForKeyBelow(key, n));
    }
  }

  lemma CountsAddUp(queues: seq<seq<PacketEnvelope>>, log: Log, key: ChannelKey)
    requires Agree(queues, log)
    ensures CountBelow(queues, key, PRIORITY_COUNT) == |OfKey(log, key)|
  {
    CountsBelow(queues, log, key, PRIORITY_COUNT);
    KeepSame(log, ForKeyBelow(key, PRIORITY_COUNT), ForKey(key));
  }

  /** The first acceptable packet of a level's queue is the first acceptable entry of the log. */
  lemma FirstInLevel(log: Log, level: nat, want: Arrival -> bool, i: nat)
    requires Discerning(want, level)
    requires var queue := Packets(OfLevel(log, level));
             && i <= |queue|
             && (i < |queue| ==> want(Arrival(level, queue[i], 0)))
             && forall j :: 0 <= j < i ==> !want(Arrival(level, queue[j], 0))
    ensures var k := First(log, want);
            && (i < |OfLevel(log, level)| <==> k < |log|)
            && (k < |log| ==> i == |OfLevel(log[..k], level)| && OfLevel(log, level)[i] == log[k])
  {
    hide Keep;
    var k, sub := First(log, want), OfLevel(log, level);
    KeepOnlyWanted(log, AtLevel(level));
    forall j | 0 <= j < |sub| ensures want(sub[j]) == want(Arrival(level, Packets(sub)[j], 0)) {
      assert sub[j] in sub && AtLevel(level)(sub[j]);
      assert sub[j] == Arrival(level, Packets(sub)[j], sub[j].given);
    }
    if k < |log| {
      KeepOfRemove(log, k, AtLevel(level));
      KeepOnlyWanted(log[..k], AtLevel(level));
      var r := |OfLevel(log[..k], level)|;
      forall j | 0 <= j < r ensures !want(sub[j]) {
        assert sub[j] == sub[..r][j] && sub[j] in log[..k];
      }
    } else {
      assert forall a :: a in log ==> !want(a);
    }
  }

  lemma EraseAgrees(queues: seq<seq<PacketEnvelope>>, log: Log, level: nat, k: nat)
    requires Agree(queues, log) && k < |log| && log[k].level == level
    ensures var r := |OfLevel(log[..k], level)|;
            r < |queues[level]| && Agree(queues[level := RemoveAt(queues[level], r)], RemoveAt(log, k))
    ensures multiset(Packets(RemoveAt(log, k))) + multiset{log[k].packet} == multiset(Packets(log))
  {
    hide Keep;
    KeepOfRemove(log, k, AtLevel(level));
    forall l | 0 <= l < PRIORITY_COUNT && l != level ensures OfLevel(RemoveAt(log, k), l) == OfLevel(log, l) {
      KeepOfRemove(log, k, AtLevel(l));
    }
    PacketsOfRemove(log, k);
  }

  lemma PacketsOfRemove(log: Log, k: nat)
    requires k < |log|
    ensures multiset(Packets(RemoveAt(log, k))) + multiset{log[k].packet} == multiset(Packets(log))
  {
    var all := Packets(log);
    assert all == all[..k] + [log[k].packet] + all[k + 1..];
    assert Packets(RemoveAt(log, k)) == all[..k] + all[k + 1..];
  }

  lemma AppendAgrees(queues: seq<seq<PacketEnvelope>>, log: Log, a: Arrival)
    requires Agree(queues, log) && Levelled(a)
    ensures Agree(queues[a.level := queues[a.level] + [a.packet]], log + [a])
    ensures multiset(Packets(log + [a])) == multiset(Packets(log)) + multiset{a.packet}
  {
    forall l | 0 <= l < PRIORITY_COUNT
      ensures Packets(OfLevel(log + [a], l)) == queues[l] + if l == a.level then [a.packet] else []
    {
      KeepOfAppend(log, a, AtLevel(l));
    }
    assert Packets(log + [a]) == Packets(log) + [a.packet];
  }

  lemma EmptyLevels(queues: seq<seq<PacketEnvelope>>, log: Log, n: nat)
    requires Agree(queues, log) && n <= PRIORITY_COUNT
    requires forall l :: 0 <= l < n ==> queues[l] == []
    ensures forall a :: a in log ==> a.level >= n
  {
    forall a | a in log ensures a.level >= n {
      KeepOnlyWanted(log, AtLevel(a.level));
      assert a in OfLevel(log, a.level);
    }
  }

  lemma {:induction false} WithoutInPackets(log: Log, key: ChannelKey)
    ensures Packets(Drain(log, key)) == Without(Packets(log), key)
  {
    if log != [] {
      var init, a := log[..|log| - 1], log[|log| - 1];
      assert log == init + [a] && Packets(log)[..|init|] == Packets(init);
      KeepOfAppend(init, a, NotForKey(key));
      WithoutInPackets(init, key);
    }
  }

  function NotForKeyAt(key: ChannelKey, level: nat): Arrival -> bool {
    (a: Arrival) => a.packet.Key() != key && a.level == level
  }

  lemma PacketsOfAppend(log: Log, a: Arrival)
    ensures Packets(log + [a]) == Packets(log) + [a.packet]
  {
  }

  lemma {:induction false} DrainSplits(log: Log, key: ChannelKey)
    ensures multiset(Packets(Drain(log, key))) + multiset(Packets(OfKey(log, key))) == multiset(Packets(log))
  {
    if log != [] {
      hide Packets, Keep;
      var init, a := log[..|log| - 1], log[|log| - 1];
      assert log == init + [a];
      DrainSplits(init, key);
      PacketsOfAppend(init, a);
      KeepOfAppend(init, a, NotForKey(key));
      KeepOfAppend(init, a, ForKey(key));
      if a.packet.Key() == key {
        assert Drain(log, key) == Drain(init, key) && OfKey(log, key) == OfKey(init, key) + [a];
        PacketsOfAppend(OfKey(init, key), a);
      } else {
        assert Drain(log, key) == Drain(init, key) + [a] && OfKey(log, key) == OfKey(init, key);
        PacketsOfAppend(Drain(init, key), a);
      }
    }
  }

  lemma DrainAgrees(queues: seq<seq<PacketEnvelope>>, log: Log, key: ChannelKey)
    requires Agree(queues, log)
    ensures Agree(seq(PRIORITY_COUNT, l requires 0 <= l < PRIORITY_COUNT => Without(queues[l], key)), Drain(log, key))
    ensures multiset(Packets(Drain(log, key))) + multiset(Packets(OfKey(log, key))) == multiset(Packets(log))
  {
    hide Keep, Without, Packets;
    forall l | 0 <= l < PRIORITY_COUNT ensures Packets(OfLevel(Drain(log, key), l)) == Without(queues[l], key) {
      KeepKeep(log, NotForKey(key), AtLevel(l), NotForKeyAt(key, l));
      KeepKeep(log, AtLevel(l), NotForKey(key), NotForKeyAt(key, l));
      WithoutInPackets(OfLevel(log, l), key);
    }
    KeepOnlyWanted(log, NotForKey(key));
    DrainSplits(log, key);
  }

  /** Congested at the limit, building below it, healthy when empty. */
  lemma PressureLevels(queuedPackets: nat, maxQueueDepth: nat)
    ensures var p := PressureOf(queuedPackets, maxQueueDepth);
            && p.queuedPackets == queuedPackets
            && (p.level == Congested <==> 0 < maxQueueDepth <= queuedPackets)
            && (p.level == BuildingQueue
                <==> 0 < queuedPackets && (maxQueueDepth == 0 || queuedPackets < maxQueueDepth))
            && (p.level == Healthy <==> queuedPackets == 0)
  {
  }
}
