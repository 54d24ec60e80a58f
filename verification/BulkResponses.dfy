/** File-range responses of the clipboard module: credit is reserved on send and returned by the peer's ack. */
module BulkResponses {
  import opened ProtocolTypes
  import opened ChannelRegistry
  import opened LargeDataScheduler

  // ----- sums over the reservation map

  ghost function Sum(m: map<nat, nat>): nat
    decreases |m|
  {
    if m == map[] then 0
    else
      var k :| k in m;
      RemovalShrinks(m, k);
      m[k] + Sum(m - {k})
  }

  lemma RemovalShrinks(m: map<nat, nat>, k: nat)
    requires k in m
    ensures |m - {k}| == |m| - 1
  {
    assert (m - {k}).Keys == m.Keys - {k};
  }

  lemma {:induction false} SumWithout(m: map<nat, nat>, k: nat)
    requires k in m
    ensures Sum(m) == m[k] + Sum(m - {k})
    decreases |m|
  {
    var j :| j in m && Sum(m) == m[j] + Sum(m - {j});
    if j != k {
      RemovalShrinks(m, j);
      RemovalShrinks(m, k);
      SumWithout(m - {j}, k);
      SumWithout(m - {k}, j);
      assert m - {j} - {k} == m - {k} - {j};
    }
  }

  lemma SumWith(m: map<nat, nat>, k: nat, v: nat)
    requires k !in m
    ensures Sum(m[k := v]) == Sum(m) + v
  {
    SumWithout(m[k := v], k);
    assert m[k := v] - {k} == m;
  }

  class BulkResponder {
    const channels: ChannelRegistry?
    const window: LargeDataWindow?
    const maxInlineBytes: nat
    const maxFileRangeBytes: nat
    var reservations: map<nat, nat>
    var nextResponseMessageId: nat
    var acksReceived: nat
    var ackMisses: nat
    var backPressureFailures: nat
    var decodeFailures: nat

    /** As the only user of its window: what is in flight is exactly what is reserved. */
    ghost predicate Valid()
      reads this, window
    {
      && (forall id :: id in reservations ==> 0 < id < nextResponseMessageId)
      && nextResponseMessageId > 0
      && (window == null ==> reservations == map[])
      && (window != null ==> window.Valid() && window.WithinMaximum() && !window.clampFired
                             && window.inFlightBytes == Sum(reservations))
    }

    constructor (channels: ChannelRegistry?, window: LargeDataWindow?, maxInlineBytes: nat, maxFileRangeBytes: nat)
      requires window != null ==> window.Valid() && window.inFlightBytes == 0 && !window.clampFired
      ensures Valid() && reservations == map[]
    {
      this.channels, this.window := channels, window;
      this.maxInlineBytes, this.maxFileRangeBytes := maxInlineBytes, maxFileRangeBytes;
      reservations, nextResponseMessageId := map[], 100000;
      acksReceived, ackMisses, backPressureFailures, decodeFailures := 0, 0, 0, 0;
    }

    function EffectiveMaxFileRangeBytes(): nat {
      if maxFileRangeBytes == 0 then maxInlineBytes else maxFileRangeBytes
    }

    function ScheduleFor(response: PacketEnvelope): ScheduleResult
      reads this, channels, window
    {
      Schedule(channels, response, |response.payload|,
               ScheduleOptions(maxInlineBytes, if window == null then 0 else window.maxInFlightBytes,
                               if window == null then 0 else window.inFlightBytes))
    }

    /** An error response takes a message id and nothing else. */
    method SendErrorResponse(sent: bool) returns (ok: bool)
      modifies this`nextResponseMessageId
      ensures ok == sent && nextResponseMessageId == old(nextResponseMessageId) + 1
    {
      nextResponseMessageId := nextResponseMessageId + 1;
      return sent;
    }

    /** `rangeStatus` and `rangeBytes` are the outcome of the local read, `response` the encoded answer and
        `sent` whether the network took the answer, or the error that replaces it. The scheduler's verdict and
        the window's agree, so a reservation the schedule allows is never refused; credit is kept exactly for
        responses that were sent. */
    method SendFileRangeResponse(rangeStatus: uint16, rangeBytes: nat, response: PacketEnvelope, sent: bool)
      returns (ok: bool)
      requires Valid()
      requires response.packetType == PACKET_CLIPBOARD && response.priority == PRIORITY_BULK
      modifies this, window
      ensures Valid()
      ensures var schedule := old(ScheduleFor(response));
              var id := old(nextResponseMessageId);
              var most := if maxFileRangeBytes != 0 then maxFileRangeBytes else maxInlineBytes;
              var accepted := rangeStatus == STATUS_OK && rangeBytes <= most && schedule.status == STATUS_OK;
              && ok == sent
              && id !in old(reservations)
              && var kept := accepted && sent && schedule.usesLargeData && window != null && |response.payload| > 0;
                 reservations == (if kept then
                                    old(reservations)[id := |response.payload|]
                                  else old(reservations))
      ensures window != null ==> window.maxInFlightBytes == old(window.maxInFlightBytes)
    {
      hide Schedule;
      if rangeStatus != STATUS_OK || rangeBytes > EffectiveMaxFileRangeBytes() {
        ok := SendErrorResponse(sent);
        return;
      }
      var id := nextResponseMessageId;
      nextResponseMessageId := nextResponseMessageId + 1;
      var schedule := ScheduleFor(response);
      if schedule.status != STATUS_OK {
        if schedule.status == STATUS_BACK_PRESSURE {
          backPressureFailures := backPressureFailures + 1;
        }
        ok := SendErrorResponse(sent);
        return;
      }
      var bytes, reserved := |response.payload|, false;
      if schedule.usesLargeData && window != null {
        ScheduledFits(this, response);
        var status := window.Reserve(bytes);
        assert status == STATUS_OK;
        reserved := true;
      }
      if !sent {
        if reserved {
          window.Release(bytes);
        }
        return false;
      }
      if reserved && bytes != 0 {
        SumWith(reservations, id, bytes);
        reservations := reservations[id := bytes];
      }
      return true;
    }

    /** The first ack of a response returns its credit; any other ack is a miss and changes nothing else. */
    method HandleAck(responseTo: nat)
      requires Valid()
      modifies this`reservations, this`acksReceived, this`ackMisses, this`decodeFailures, window
      ensures Valid()
      ensures reservations == old(reservations) - {responseTo}
      ensures acksReceived == old(acksReceived) + if responseTo in old(reservations) then 1 else 0
      ensures responseTo !in old(reservations) && window != null ==> unchanged(window)
      ensures window != null ==> window.maxInFlightBytes == old(window.maxInFlightBytes)
    {
      if responseTo == 0 {
        decodeFailures := decodeFailures + 1;
        return;
      }
      if responseTo !in reservations {
        ackMisses := ackMisses + 1;
        return;
      }
      SumWithout(reservations, responseTo);
      window.Release(reservations[responseTo]);
      reservations := reservations - {responseTo};
      acksReceived := acksReceived + 1;
    }

    /** Stop, detach and a reconnect pause give every outstanding credit back. */
    method ReleaseAll()
      requires Valid()
      modifies this`reservations, window
      ensures Valid() && reservations == map[]
      ensures window != null ==> window.inFlightBytes == 0 && window.releasedBytes == window.reservedBytes
      ensures window != null ==> window.maxInFlightBytes == old(window.maxInFlightBytes)
    {
      if window != null {
        var remaining := reservations;
        while remaining != map[]
          invariant window.Valid() && window.WithinMaximum() && !window.clampFired
          invariant window.inFlightBytes == Sum(remaining)
          invariant window.maxInFlightBytes == old(window.maxInFlightBytes)
          decreases |remaining|
        {
          var id :| id in remaining;
          SumWithout(remaining, id);
          RemovalShrinks(remaining, id);
          window.Release(remaining[id]);
          remaining := remaining - {id};
        }
      }
      reservations := map[];
    }
  }

  lemma ScheduledFits(responder: BulkResponder, response: PacketEnvelope)
    requires responder.window != null
    requires responder.ScheduleFor(response).status == STATUS_OK && responder.ScheduleFor(response).usesLargeData
    ensures !WindowBlocksBulk(|response.payload|,
                              ScheduleOptions(0, responder.window.maxInFlightBytes, responder.window.inFlightBytes))
  {
  }
}
