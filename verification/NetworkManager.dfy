/** Registry, scheduler and router working together on every send. */
module NetworkManager {
  import opened ProtocolTypes
  import opened SchedulerLog
  import opened PriorityScheduler
  import opened ChannelDefaults
  import opened NetworkRouter
  import opened ChannelRegistry
  import opened CapabilityNegotiation

  /** Each registered channel's cached pressure counts its queued packets, each bound channel is the one the
      router sends on, a ready channel is bound, and every queued packet's channel is registered and routed. */
  ghost predicate Coherent(entries: map<ChannelKey, Entry>, channels: map<ChannelKey, Channel>, log: Log) {
    && (forall k :: k in entries ==> entries[k].snapshot.pressure.queuedPackets == |OfKey(log, k)|)
    && (forall k :: k in entries && entries[k].channel.Some? ==>
          k in channels && channels[k] == entries[k].channel.value)
    && (forall k :: k in entries && entries[k].snapshot.state == Ready ==> entries[k].channel.Some?)
    && (forall a :: a in log ==> a.packet.Key() in entries && a.packet.Key() in channels)
  }

  predicate VideoOnly(spec: ChannelSpec) {
    spec.allowlist != [] && forall t :: t in spec.allowlist ==> t == PACKET_VIDEO
  }

  /** No channel holds more than 1024 packets, and one whose allowlist admits only video no more than two. */
  ghost predicate Bounded(entries: map<ChannelKey, Entry>, log: Log) {
    && (forall k :: |OfKey(log, k)| <= 1024)
    && (forall k :: k in entries && VideoOnly(entries[k].snapshot.spec) ==> |OfKey(log, k)| <= 2)
  }

  /** Every packet was queued with the priority its type gets by default. */
  ghost predicate ByDefault(log: Log) {
    forall a :: a in log ==> a.given == DefaultSendOptions(a.packet).priority
  }

  /** Heartbeats, channel set-up and key exchange are critical. */
  predicate IsCritical(p: PacketEnvelope) {
    p.packetType == PACKET_HEARTBEAT || p.packetType == PACKET_CHANNEL_INIT || p.packetType == PACKET_EXCHANGE
  }

  /** `p`, taken from `log`, has no more urgent packet beside it by default priorities, and is critical if any is. */
  ghost predicate MostUrgent(log: Log, p: PacketEnvelope) {
    && (forall a :: a in log ==> DefaultSendOptions(p).priority <= DefaultSendOptions(a.packet).priority)
    && ((exists a :: a in log && IsCritical(a.packet)) ==> IsCritical(p))
  }

  /** The position in the log of the packet a flush of `p` takes: first at the level of its own priority
      field, then at the level default options give it. */
  function FlushIndex(log: Log, p: PacketEnvelope): nat {
    var i := TakeIndex(log, p);
    if i < |log| then i else TakeIndex(log, p.(priority := DefaultSendOptions(p).priority))
  }

  /** An open channel has the packet appended to what it sent and its answer is reported; a closed channel
      is left alone. */
  twostate predicate SentOn(channel: Channel, p: PacketEnvelope, status: SendStatus)
    reads channel
  {
    && status == (if old(channel.open) then old(channel.answer) else ChannelClosed)
    && channel.sent == (if old(channel.open) then old(channel.sent) + [p] else old(channel.sent))
  }

  class NetworkManager {
    const registry: ChannelRegistry
    const scheduler: PriorityScheduler
    const router: NetworkRouter

    ghost predicate Valid()
      reads this, registry, scheduler, router
    {
      && registry.Valid() && scheduler.Valid() && router.Valid()
      && Coherent(registry.entries, router.channels, scheduler.arrivals)
      && Bounded(registry.entries, scheduler.arrivals) && ByDefault(scheduler.arrivals)
    }

    constructor (capabilities: ProtocolCapabilities)
      ensures Valid() && fresh(registry) && fresh(scheduler) && fresh(router)
      ensures scheduler.arrivals == [] && registry.entries == map[] && router.channels == map[]
    {
      registry := new ChannelRegistry(capabilities);
      scheduler := new PriorityScheduler();
      router := new NetworkRouter();
    }

    method RegisterSpec(spec: ChannelSpec) returns (result: RegistryResult)
      requires Valid()
      modifies registry
      ensures Valid()
      ensures result.status == if spec.key.channelId == 0 then InvalidArgument
                               else if spec.key in old(registry.entries) then AlreadyRegistered else RegistryOk
      ensures result.Ok() ==>
                && registry.entries.Keys == old(registry.entries.Keys) + {spec.key}
                && registry.entries[spec.key].snapshot.spec == spec && !registry.IsReady(spec.key)
      ensures forall k :: k in old(registry.entries) ==>
                k in registry.entries && registry.entries[k] == old(registry.entries)[k]
      ensures !result.Ok() ==> registry.entries == old(registry.entries)
    {
      hide Keep;
      result := registry.RegisterSpec(spec);
      if result.Ok() {
        NoneQueued(scheduler.arrivals, spec.key);
      }
    }

    method BindChannel(channel: Channel?) returns (result: RegistryResult)
      requires Valid()
      modifies registry, router
      ensures Valid()
      ensures result.status == if channel == null then InvalidArgument
                               else if channel.key !in old(registry.entries) then NotFound else RegistryOk
      ensures result.Ok() ==>
                && router.channels == old(router.channels)[channel.key := channel]
                && channel.key in registry.entries && registry.entries[channel.key].channel == Some(channel)
                && !registry.IsReady(channel.key)
      ensures !result.Ok() ==> router.channels == old(router.channels) && registry.entries == old(registry.entries)
    {
      hide Keep, OfKey, VideoOnly, Sound;
      if channel == null {
        return RegistryResult(InvalidArgument, STATUS_INVALID_ARGUMENT);
      }
      result := registry.Bind(channel.key, channel);
      if !result.Ok() {
        return;
      }
      var _ := router.RegisterChannel(channel);
    }

    method MarkReady(key: ChannelKey) returns (result: RegistryResult)
      requires Valid()
      modifies registry
      ensures Valid()
      ensures result.Ok() <==>
                && key in old(registry.entries) && old(registry.entries)[key].channel.Some?
                && old(registry.entries)[key].channel.value.open
      ensures result.Ok() ==> registry.IsReady(key)
      ensures !result.Ok() ==> registry.entries == old(registry.entries)
    {
      hide Keep;
      result := registry.MarkReady(key);
    }

    method MarkDegraded(key: ChannelKey) returns (result: RegistryResult)
      requires Valid()
      modifies registry
      ensures Valid()
      ensures result.Ok() <==> key in old(registry.entries)
      ensures result.Ok() ==> key in registry.entries && registry.entries[key].snapshot.state == Degraded
      ensures !registry.IsReady(key)
    {
      hide Keep;
      result := registry.MarkDown(key, Degraded);
    }

    /** Binding succeeds for any registered channel even when the channel then turns out not to be open. */
    method RebindChannel(channel: Channel?) returns (result: RegistryResult)
      requires Valid()
      modifies registry, router
      ensures Valid()
      ensures result.Ok() <==> channel != null && channel.key in old(registry.entries) && channel.open
      ensures channel != null ==> (result.Ok() <==> registry.IsReady(channel.key))
      ensures router.channels == if channel != null && channel.key in old(registry.entries) then
                                   old(router.channels)[channel.key := channel]
                                 else old(router.channels)
    {
      hide Coherent, Bounded;
      result := BindChannel(channel);
      if !result.Ok() {
        return;
      }
      result := MarkReady(channel.key);
    }

    method Enqueue(p: PacketEnvelope) returns (result: EnqueueResult)
      requires Valid()
      modifies registry, scheduler
      ensures Valid()
      ensures var before := old(scheduler.arrivals);
              if !old(registry.ValidatePacket(p)).Ok() then
                result.status == EnqueueStatus.Rejected && scheduler.arrivals == before
                  && registry.entries == old(registry.entries)
              else
                var r := Admit(before, p, DefaultSendOptions(p));
                result.status == r.status && result.droppedPackets == r.droppedPackets && scheduler.arrivals == r.log
      ensures result.status == Queued ==>
                var n := |scheduler.arrivals|;
                && n > 0 && scheduler.arrivals[n - 1].packet == p && FlushIndex(scheduler.arrivals, p) < n
                && (FlushIndex(scheduler.arrivals, p) == n - 1 <==> !HasTwin(old(scheduler.arrivals), p))
      ensures KeyFrames(old(scheduler.arrivals)) <= KeyFrames(scheduler.arrivals)
    {
      hide Keep, Admit, FlushIndex, HasTwin, Coherent, Bounded, ByDefault, VideoOnly, DefaultSendOptions, KeyFrames;
      hide ChannelRegistry.ValidatePacket, PriorityScheduler.Valid, NetworkRouter.Valid;
      var validation := registry.ValidatePacket(p);
      if !validation.Ok() {
        return EnqueueResult(EnqueueStatus.Rejected, 0, ChannelPressure(Healthy, 0));
      }
      AcceptedIsAllowed(registry, p);
      ghost var before := scheduler.arrivals;
      var options := DefaultSendOptions(p);
      result := scheduler.Enqueue(p, options);
      var _ := registry.UpdatePressure(p.Key(), result.pressure);
      AdmitStaysCoherent(old(registry.entries), registry.entries, router.channels, before, p);
      AdmitByDefault(before, p);
      AdmitStaysBounded(old(registry.entries), registry.entries, before, p);
      OfferKeepsKeyFrames(before, p);
      if result.status == Queued {
        AdmittedIsFound(before, p);
      }
    }

    method FlushNext() returns (empty: bool, status: SendStatus)
      requires Valid()
      modifies registry, scheduler, router.channels.Values
      ensures Valid() && status != ChannelNotFound
      ensures router.channels == old(router.channels)
      ensures empty <==> old(scheduler.arrivals) == []
      ensures !empty ==> exists k: nat ::
                && IsNext(old(scheduler.arrivals), k)
                && scheduler.arrivals == RemoveAt(old(scheduler.arrivals), k)
                && var p := old(scheduler.arrivals)[k].packet;
                   p.Key() in router.channels && SentOn(router.channels[p.Key()], p, status)
                   && MostUrgent(old(scheduler.arrivals), p)
    {
      hide NetworkRouter.Valid, Coherent, Bounded, ByDefault;
      var next := scheduler.NextPacket();
      if next == None {
        return true, SendFailed;
      }
      ghost var before := old(scheduler.arrivals);
      ghost var k: nat :| IsNext(before, k) && next == Some(before[k].packet)
        && scheduler.arrivals == RemoveAt(before, k);
      NextIsMostUrgent(before, k);
      status := SendTaken(next.value, before, k);
      empty := false;
    }

    /** Every exit but the first leaves one packet less; that one packet was handed to its channel. */
    method FlushPacket(p: PacketEnvelope) returns (queued: bool, status: SendStatus)
      requires Valid()
      modifies registry, scheduler, router.channels.Values
      ensures Valid() && status != ChannelNotFound
      ensures router.channels == old(router.channels)
      ensures var before := old(scheduler.arrivals); var i := FlushIndex(before, p);
              && (queued <==> i < |before|)
              && scheduler.arrivals == (if queued then RemoveAt(before, i) else before)
              && (queued ==> var q := before[i].packet;
                             q.Key() in router.channels && SentOn(router.channels[q.Key()], q, status))
    {
      hide Coherent, Bounded, ByDefault, Wanted, DefaultSendOptions;
      ghost var before := scheduler.arrivals;
      var taken := scheduler.TakePacket(p);
      if taken == None {
        taken := scheduler.TakePacket(p.(priority := DefaultSendOptions(p).priority));
      }
      if taken == None {
        return false, SendFailed;
      }
      status := SendTaken(taken.value, before, FlushIndex(before, p));
      queued := true;
    }

    /** The tail of both flushes: send a packet just taken from the scheduler and refresh its pressure. */
    method SendTaken(p: PacketEnvelope, ghost before: Log, ghost k: nat) returns (status: SendStatus)
      requires scheduler.Valid() && router.Valid()
      requires registry.Valid() && Coherent(registry.entries, router.channels, before)
               && Bounded(registry.entries, before) && ByDefault(before)
      requires k < |before| && before[k].packet == p && scheduler.arrivals == RemoveAt(before, k)
      modifies registry, scheduler, router.channels.Values
      ensures Valid() && status != ChannelNotFound
      ensures scheduler.arrivals == old(scheduler.arrivals) && router.channels == old(router.channels)
      ensures p.Key() in router.channels && SentOn(router.channels[p.Key()], p, status)
    {
      hide PriorityScheduler.Valid, Keep, OfKey, VideoOnly, Bounded, DefaultSendOptions;
      status := router.Send(p);
      var pressure := scheduler.ComputePressure(p.Key(), 0);
      var _ := registry.UpdatePressure(p.Key(), pressure);
      RemoveStaysCoherent(old(registry.entries), registry.entries, router.channels, before, k);
      RemoveStaysBounded(old(registry.entries), registry.entries, before, k);
    }
  }

  // ----- why the invariant holds

  lemma NoneQueued(log: Log, key: ChannelKey)
    requires forall a :: a in log ==> a.packet.Key() != key
    ensures OfKey(log, key) == []
  {
    var none := (a: Arrival) => false;
    KeepSame(log, ForKey(key), none);
    KeepSplits(log, none, none, none);
  }

  lemma AdmitStaysCoherent(before: map<ChannelKey, Entry>, after: map<ChannelKey, Entry>,
                           channels: map<ChannelKey, Channel>, log: Log, p: PacketEnvelope)
    requires Coherent(before, channels, log) && p.Key() in before && before[p.Key()].snapshot.state == Ready
    requires var r := Admit(log, p, DefaultSendOptions(p)); var e := before[p.Key()];
             exists level :: after
               == before[p.Key() :=
                         e.(snapshot := e.snapshot.(pressure := ChannelPressure(level, |OfKey(r.log, p.Key())|)))]
    ensures Coherent(after, channels, Admit(log, p, DefaultSendOptions(p)).log)
  {
    hide Keep, HasFlag;
    var r := Admit(log, p, DefaultSendOptions(p));
    forall k | k in before && k != p.Key() ensures OfKey(r.log, k) == OfKey(log, k) {
      AdmitKeepsOtherChannels(log, p, DefaultSendOptions(p), k);
    }
    assert forall a :: a in r.log ==> a in log || a.packet == p;
  }

  lemma RemoveStaysCoherent(before: map<ChannelKey, Entry>, after: map<ChannelKey, Entry>,
                            channels: map<ChannelKey, Channel>, log: Log, k: nat)
    requires Coherent(before, channels, log) && k < |log|
    requires var key := log[k].packet.Key();
             key in before && exists level ::
               after == before[key := before[key].(snapshot := before[key].snapshot.(pressure :=
                                        ChannelPressure(level, |OfKey(RemoveAt(log, k), key)|)))]
    ensures Coherent(after, channels, RemoveAt(log, k))
  {
    hide Keep;
    forall other | other in before && other != log[k].packet.Key()
      ensures OfKey(RemoveAt(log, k), other) == OfKey(log, other)
    {
      KeepOfRemove(log, k, ForKey(other));
    }
  }

  lemma NextIsMostUrgent(log: Log, k: nat)
    requires ByDefault(log) && IsNext(log, k) && forall a :: a in log ==> Levelled(a)
    ensures MostUrgent(log, log[k].packet)
  {
    hide DefaultSendOptions;
    NextPrecedesAll(log, k);
    forall a | a in log
      ensures DefaultSendOptions(log[k].packet).priority <= DefaultSendOptions(a.packet).priority
    {
      var j :| 0 <= j < |log| && log[j] == a;
      assert j != k ==> Precedes(log, k, j);
      DefaultsAreInRange(log[k].packet);
      DefaultsAreInRange(a.packet);
    }
    forall a | a in log && IsCritical(a.packet) ensures IsCritical(log[k].packet) {
      DefaultsAreInRange(log[k].packet);
      DefaultsAreInRange(a.packet);
    }
  }

  lemma DefaultsAreInRange(p: PacketEnvelope)
    ensures DefaultSendOptions(p).priority <= 5
    ensures DefaultSendOptions(p).priority == 0 <==> IsCritical(p)
  {
  }

  lemma AdmitByDefault(log: Log, p: PacketEnvelope)
    requires ByDefault(log)
    ensures ByDefault(Admit(log, p, DefaultSendOptions(p)).log)
  {
    hide Keep, First, HasFlag, DefaultSendOptions;
  }

  lemma AcceptedIsAllowed(registry: ChannelRegistry, p: PacketEnvelope)
    requires registry.ValidatePacket(p).Ok()
    ensures p.Key() in registry.entries && registry.entries[p.Key()].snapshot.state == Ready
    ensures VideoOnly(registry.entries[p.Key()].snapshot.spec) ==> p.packetType == PACKET_VIDEO
  {
  }

  lemma AdmitStaysBounded(before: map<ChannelKey, Entry>, after: map<ChannelKey, Entry>, log: Log, p: PacketEnvelope)
    requires Bounded(before, log) && p.Key() in before
    requires after.Keys == before.Keys && forall k :: k in after ==> after[k].snapshot.spec == before[k].snapshot.spec
    requires VideoOnly(before[p.Key()].snapshot.spec) ==> p.packetType == PACKET_VIDEO
    ensures Bounded(after, Admit(log, p, DefaultSendOptions(p)).log)
  {
    hide Keep, Admit, VideoOnly;
    assert Step(log, Offer(p)) == Admit(log, p, DefaultSendOptions(p)).log;
    forall k ensures |OfKey(Step(log, Offer(p)), k)| <= 1024 {
      StepBound(log, Offer(p), k, 1024);
    }
    forall k | k in after && VideoOnly(after[k].snapshot.spec) ensures |OfKey(Step(log, Offer(p)), k)| <= 2 {
      StepBound(log, Offer(p), k, 2);
    }
  }

  lemma RemoveStaysBounded(before: map<ChannelKey, Entry>, after: map<ChannelKey, Entry>, log: Log, i: nat)
    requires Bounded(before, log) && i < |log|
    requires after.Keys == before.Keys && forall k :: k in after ==> after[k].snapshot.spec == before[k].snapshot.spec
    ensures Bounded(after, RemoveAt(log, i))
  {
    hide Keep, RemoveAt, VideoOnly;
    assert Step(log, Leave(i)) == RemoveAt(log, i);
    forall k ensures |OfKey(Step(log, Leave(i)), k)| <= 1024 {
      StepBound(log, Leave(i), k, 1024);
    }
    forall k | k in after && VideoOnly(after[k].snapshot.spec) ensures |OfKey(Step(log, Leave(i)), k)| <= 2 {
      StepBound(log, Leave(i), k, 2);
    }
  }

  // ----- enqueue, then flush

  /** Position of the entry that admitting `p` evicts; the length of the log when it evicts none. */
  function Victim(log: Log, p: PacketEnvelope): nat {
    var options := DefaultSendOptions(p);
    if options.dropPolicy == KeepLatestNonKeyFrame && |OfKey(log, p.Key())| >= options.maxQueueDepth then
      First(log, Stale(PriorityIndex(options.priority), p.Key()))
    else |log|
  }

  /** A flush of `p` would take this entry for `p`. */
  predicate PassesFor(a: Arrival, p: PacketEnvelope) {
    Wanted(p)(a) || Wanted(p.(priority := DefaultSendOptions(p).priority))(a)
  }

  /** The queue holds, and will keep, an entry that passes for `p`. */
  ghost predicate HasTwin(log: Log, p: PacketEnvelope) {
    exists i :: 0 <= i < |log| && i != Victim(log, p) && PassesFor(log[i], p)
  }

  /** After an accepted enqueue a flush of the same packet always finds something to send. It sends that very
      arrival exactly when no other queued packet passes for it. */
  lemma AdmittedIsFound(log: Log, p: PacketEnvelope)
    requires Admit(log, p, DefaultSendOptions(p)).status == Queued
    ensures var after := Admit(log, p, DefaultSendOptions(p)).log;
            && after[|after| - 1].packet == p
            && FlushIndex(after, p) < |after|
            && (FlushIndex(after, p) == |after| - 1 <==> !HasTwin(log, p))
  {
    hide Keep, HasFlag;
    var after, v := Admit(log, p, DefaultSendOptions(p)).log, Victim(log, p);
    var kept := if v < |log| then RemoveAt(log, v) else log;
    assert after == kept + [Arrival(PriorityIndex(DefaultSendOptions(p).priority), p, DefaultSendOptions(p).priority)];
    FlushTakesFirstPassing(after, p);
    KeptTwin(log, p, kept);
    assert forall i :: 0 <= i < |kept| ==> after[i] == kept[i];
  }

  lemma FlushTakesFirstPassing(after: Log, p: PacketEnvelope)
    requires after != [] && Wanted(p.(priority := DefaultSendOptions(p).priority))(after[|after| - 1])
    ensures FlushIndex(after, p) < |after|
    ensures FlushIndex(after, p) == |after| - 1 <==> forall i :: 0 <= i < |after| - 1 ==> !PassesFor(after[i], p)
  {
    hide First;
    var level, n := PriorityIndex(DefaultSendOptions(p).priority), |after|;
    if PriorityIndex(p.priority) == level {
      assert forall a :: Wanted(p)(a) <==> Wanted(p.(priority := DefaultSendOptions(p).priority))(a);
    } else {
      assert !Wanted(p)(after[n - 1]);
    }
    assert forall i :: 0 <= i < n ==> (PassesFor(after[i], p)
             <==> Wanted(p)(after[i]) || Wanted(p.(priority := DefaultSendOptions(p).priority))(after[i]));
  }

  lemma KeptTwin(log: Log, p: PacketEnvelope, kept: Log)
    requires kept == if Victim(log, p) < |log| then RemoveAt(log, Victim(log, p)) else log
    ensures HasTwin(log, p) <==> exists i :: 0 <= i < |kept| && PassesFor(kept[i], p)
  {
    hide PassesFor, Victim;
    var v := Victim(log, p);
    if HasTwin(log, p) {
      var i :| 0 <= i < |log| && i != v && PassesFor(log[i], p);
      assert kept[if i < v || v >= |log| then i else i - 1] == log[i];
    }
    if i :| 0 <= i < |kept| && PassesFor(kept[i], p) {
      assert log[if i < v || v >= |log| then i else i + 1] == kept[i];
    }
  }

  /** So a flush can send another packet than the one just accepted: two clipboard events that differ in their
      payload only, sent one after the other, and the flush of the second sends the first. */
  lemma FlushSendsTheTwin(q: PacketEnvelope, payload: ByteBuffer)
    requires q.packetType == PACKET_CLIPBOARD && q.priority == PRIORITY_NORMAL
    ensures var p := q.(payload := payload);
            var log := Run([Offer(q), Offer(p)]);
            |log| == 2 && log[1].packet == p && FlushIndex(log, p) == 0 && log[0].packet == q
  {
    var p := q.(payload := payload);
    var first := [Arrival(PriorityIndex(PRIORITY_INTERACTIVE), q, PRIORITY_INTERACTIVE)];
    assert [Offer(q), Offer(p)][..1] == [Offer(q)] && [Offer(q)][..0] == [];
    assert RunFrom([], []) == [] && OfKey([], q.Key()) == [];
    assert RunFrom([], [Offer(q)]) == Step([], Offer(q)) == first;
    assert first[1..] == [] && Keep(first[1..], ForKey(p.Key())) == [];
    assert |OfKey(first, p.Key())| <= 1;
    assert RunFrom([], [Offer(q), Offer(p)]) == Step(first, Offer(p))
           == first + [Arrival(PriorityIndex(PRIORITY_INTERACTIVE), p, PRIORITY_INTERACTIVE)];
  }
}
