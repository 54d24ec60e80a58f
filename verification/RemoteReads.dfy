/** The clipboard's outgoing reads: each is tracked before it is sent and completed at once if it cannot be. */
module RemoteReads {
  import opened ProtocolTypes
  import opened RequestTracker

  datatype DispatchResult = DispatchResult(dispatched: bool, status: uint16, messageId: uint64)

  /** The request packet: `template` carries the session, the channel and the encoded body. */
  function ReadRequest(template: PacketEnvelope, id: uint64, timeoutMs: uint32, sentUsec: uint64): PacketEnvelope {
    template.(messageKind := KIND_REQUEST, priority := PRIORITY_NORMAL, flags := FLAG_RESPONSE_REQUIRED,
              messageId := id,
              correlationId := id, timeoutMs := if timeoutMs == 0 then 1000 else timeoutMs, timestampUsec := sentUsec)
  }

  function Unavailable(request: PacketEnvelope): PacketEnvelope {
    request.(messageKind := KIND_ERROR, responseStatus := STATUS_CHANNEL_UNAVAILABLE, responseTo := request.messageId)
  }

  function Cancelled(template: PacketEnvelope, correlationId: uint64): PacketEnvelope {
    template.(messageKind := KIND_ERROR, responseStatus := STATUS_CANCELLED, responseTo := correlationId,
              correlationId := correlationId)
  }

  class RemoteReads {
    const requests: RequestTracker
    var running: bool

    /** The tracker's ids all come from its own counter. */
    ghost predicate Valid()
      reads this, requests
    {
      requests.Valid() && forall id :: id in requests.pending ==> id < requests.nextMessageId
    }

    constructor ()
      ensures Valid() && fresh(requests) && requests.pending == map[] && !running
    {
      requests := new RequestTracker(1);
      running := false;
    }

    /** `refusal` is the status of the policy or offer check that turned the request down, and `sent` is
        whether the channel took the packet. The id counter is assumed not to wrap. A request that was
        tracked but not sent is completed on the spot: its handler hears of it exactly once. */
    method Dispatch(template: PacketEnvelope, timeoutMs: uint32, nowUsec: uint64, clockUsec: uint64, handler: nat,
                    refusal: Option<uint16>, sent: bool)
      returns (result: DispatchResult)
      requires Valid() && 0 < requests.nextMessageId < 0xffff_ffff_ffff_ffff
      modifies requests
      ensures Valid()
      ensures var packet := ReadRequest(template, old(requests.nextMessageId), timeoutMs,
                                        if nowUsec == 0 then clockUsec else nowUsec);
              if !running || refusal.Some? then
                && result == DispatchResult(false, if running then refusal.value else STATUS_FAILED, 0)
                && requests.pending == old(requests.pending) && requests.calls == old(requests.calls)
                && requests.tracked == old(requests.tracked)
              else
                && requests.tracked == old(requests.tracked) + 1
                && result.dispatched == sent && result.messageId == packet.messageId
                && result.status == (if sent then STATUS_OK else STATUS_CHANNEL_UNAVAILABLE)
                && packet.messageId !in old(requests.pending)
                && requests.pending == (if sent then
                                        old(requests.pending)[packet.messageId :=
                                                              PendingRequest(packet, handler, Deadline(packet))]
                                        else old(requests.pending))
                && requests.calls == old(requests.calls)
                  + (if sent then [] else [Call(old(requests.tracked), handler, Unavailable(packet))])
    {
      hide Accounted;
      if !running {
        return DispatchResult(false, STATUS_FAILED, 0);
      }
      if refusal.Some? {
        return DispatchResult(false, refusal.value, 0);
      }
      var id := requests.NextMessageId();
      var packet := ReadRequest(template, id, timeoutMs, if nowUsec == 0 then clockUsec else nowUsec);
      var tracked := requests.Track(packet, Some(handler));
      assert tracked.tracked;
      if sent {
        return DispatchResult(true, STATUS_OK, id);
      }
      var _ := requests.Complete(Unavailable(packet));
      assert requests.pending == old(requests.pending);
      return DispatchResult(false, STATUS_CHANNEL_UNAVAILABLE, id);
    }

    /** A cancel from the peer ends the request it names and reports a miss when there is none. */
    method HandleCancel(template: PacketEnvelope, correlationId: uint64) returns (missed: bool)
      requires Valid()
      modifies requests
      ensures Valid()
      ensures missed <==> correlationId !in old(requests.pending)
      ensures requests.pending == old(requests.pending) - {correlationId as nat}
      ensures requests.calls == old(requests.calls) + if missed then [] else
                [Call(old(requests.tickets)[correlationId], old(requests.pending)[correlationId].handler,
                      Cancelled(template, correlationId))]
    {
      var matched := requests.Complete(Cancelled(template, correlationId));
      missed := !matched;
    }
  }

  /** A read request can be tracked and is answered under its own id, which it also correlates by; without a timeout of
      its own it waits a second. */
  lemma RequestExactly(template: PacketEnvelope, id: uint64, timeoutMs: uint32, sentUsec: uint64)
    requires id != 0
    ensures var r := ReadRequest(template, id, timeoutMs, sentUsec);
            && r.messageKind == 1 && r.priority == 3 && r.flags == 1 && r.messageId == r.correlationId == id
            && r.timeoutMs == (if timeoutMs == 0 then 1000 else timeoutMs) && r.timestampUsec == sentUsec
            && Trackable(r)
            && r.channelId == template.channelId && r.channelType == template.channelType
            && r.packetType == template.packetType && r.payload == template.payload
  {
  }

  /** Both answers the clipboard gives itself end the request they name: one that could not be sent, and one that the
      peer cancelled. */
  lemma OwnAnswersExactly(request: PacketEnvelope, correlationId: uint64)
    ensures var u, c := Unavailable(request), Cancelled(request, correlationId);
            && u.messageKind == 4 && u.responseStatus == 111 && u.responseTo == request.messageId
            && c.messageKind == 4 && c.responseStatus == 108 && c.responseTo == c.correlationId == correlationId
  {
  }
}
