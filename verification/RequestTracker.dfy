/** Matching responses to outstanding requests: every tracked request is answered, cancelled or expired once. */
module RequestTracker {
  import opened ProtocolTypes
  import opened ProtocolValidator

  /** A handler is known by the number its owner gave it. Calling one is recorded in a log, with the ticket the
      request got when it was tracked: the first request ever tracked has ticket 0, the next 1. */
  datatype PendingRequest = PendingRequest(request: PacketEnvelope, handler: nat, deadlineUsec: uint64)

  datatype Call = Call(ticket: nat, handler: nat, response: PacketEnvelope)

  datatype TrackResult = TrackResult(tracked: bool, status: uint16)

  predicate IsTrackableRequest(kind: uint16) {
    kind == KIND_REQUEST || kind == KIND_STREAM_START || kind == KIND_CANCEL
  }

  predicate IsTerminalResponse(kind: uint16) {
    kind == KIND_RESPONSE || kind == KIND_ERROR || kind == KIND_STREAM_END
  }

  /** The fields a request needs before it can be tracked. */
  predicate Trackable(request: PacketEnvelope) {
    IsTrackableRequest(request.messageKind) && request.messageId != 0 && request.correlationId != 0
      && request.timeoutMs != 0
  }

  /** The deadline is computed in 64 bits and wraps around. */
  function Deadline(request: PacketEnvelope): uint64 {
    (request.timestampUsec + request.timeoutMs * 1000) % 0x1_0000_0000_0000_0000
  }

  function SyntheticResponse(p: PendingRequest, status: uint16): PacketEnvelope {
    var r := p.request;
    PacketEnvelope(r.protocolMajor, r.protocolMinor, r.sessionId, r.traceId, 0, r.correlationId, r.messageId,
                   r.channelId, r.channelType, r.packetType, KIND_ERROR, r.priority, status, 0, 0, 0, 0, [])
  }

  function SyntheticCalls(pending: map<nat, PendingRequest>, tickets: map<nat, nat>, ids: seq<nat>,
                          status: uint16): seq<Call>
    requires forall id :: id in ids ==> id in pending && id in tickets
  {
    seq(|ids|, i requires 0 <= i < |ids| =>
      Call(tickets[ids[i]], pending[ids[i]].handler, SyntheticResponse(pending[ids[i]], status)))
  }

  function ToSet(ids: seq<nat>): set<nat> {
    set id | id in ids
  }

  // ----- accounting for handler calls

  predicate Terminal(call: Call) {
    IsTerminalResponse(call.response.messageKind)
  }

  function TerminalCount(calls: seq<Call>): nat {
    if calls == [] then 0
    else TerminalCount(calls[..|calls| - 1]) + if Terminal(calls[|calls| - 1]) then 1 else 0
  }

  /** A request's terminal call is the last call it gets. */
  ghost predicate TerminalIsLast(calls: seq<Call>) {
    forall i, j :: 0 <= i < j < |calls| && Terminal(calls[i]) ==> calls[j].ticket != calls[i].ticket
  }

  ghost predicate Ended(calls: seq<Call>, ticket: nat) {
    exists i :: 0 <= i < |calls| && Terminal(calls[i]) && calls[i].ticket == ticket
  }

  ghost predicate PendingOrEnded(tickets: map<nat, nat>, calls: seq<Call>, tracked: nat) {
    forall ticket :: 0 <= ticket < tracked ==> (Ended(calls, ticket) <==> ticket !in tickets.Values)
  }

  /** Every request ever tracked is either pending, and has had no terminal call, or has had its one terminal
      call; so the terminal calls and the pending requests make up all that were tracked. */
  ghost predicate Accounted(tickets: map<nat, nat>, calls: seq<Call>, tracked: nat) {
    && TerminalIsLast(calls)
    && (forall i :: 0 <= i < |calls| ==> calls[i].ticket < tracked)
    && (forall id :: id in tickets ==> tickets[id] < tracked)
    && (forall i, j :: i in tickets && j in tickets && tickets[i] == tickets[j] ==> i == j)
    && PendingOrEnded(tickets, calls, tracked)
    && TerminalCount(calls) + |tickets| == tracked
  }

  class RequestTracker {
    var nextMessageId: uint64
    var pending: map<nat, PendingRequest>
    ghost var calls: seq<Call>
    ghost var tickets: map<nat, nat>
    ghost var tracked: nat

    ghost predicate Valid()
      reads this
    {
      && tickets.Keys == pending.Keys
      && Accounted(tickets, calls, tracked)
      && (forall id :: id in pending ==> id != 0 && pending[id].request.messageId == id)
    }

    constructor (firstMessageId: uint64)
      ensures Valid() && pending == map[] && calls == [] && tracked == 0
      ensures nextMessageId == if firstMessageId == 0 then 1 else firstMessageId
    {
      nextMessageId := if firstMessageId == 0 then 1 else firstMessageId;
      pending, calls, tickets, tracked := map[], [], map[], 0;
    }

    method NextMessageId() returns (id: uint64)
      modifies this`nextMessageId
      ensures id == (if old(nextMessageId) == 0 then 1 else old(nextMessageId))
      ensures nextMessageId == (id + 1) % 0x1_0000_0000_0000_0000
    {
      id := if nextMessageId == 0 then 1 else nextMessageId;
      nextMessageId := (id + 1) % 0x1_0000_0000_0000_0000;
    }

    method Track(request: PacketEnvelope, handler: Option<nat>) returns (result: TrackResult)
      requires Valid()
      modifies this`pending, this`tickets, this`tracked
      ensures Valid()
      ensures result.tracked <==> handler.Some? && Trackable(request) && request.messageId !in old(pending)
      ensures result.status == if result.tracked then STATUS_OK
                               else if handler.Some? && Trackable(request) then STATUS_CONFLICT
                               else STATUS_INVALID_ARGUMENT
      ensures pending == if result.tracked then
                           old(pending)[request.messageId := PendingRequest(request, handler.value, Deadline(request))]
                         else old(pending)
      ensures tracked == old(tracked) + if result.tracked then 1 else 0
      ensures tickets == if result.tracked then old(tickets)[request.messageId := old(tracked)] else old(tickets)
    {
      if handler == None || !Trackable(request) {
        return TrackResult(false, STATUS_INVALID_ARGUMENT);
      }
      if request.messageId in pending {
        return TrackResult(false, STATUS_CONFLICT);
      }
      TrackAccounted(tickets, calls, tracked, request.messageId);
      pending := pending[request.messageId := PendingRequest(request, handler.value, Deadline(request))];
      tickets := tickets[request.messageId := tracked];
      tracked := tracked + 1;
      result := TrackResult(true, STATUS_OK);
    }

    /** A response reaches the handler of the request it answers; only a terminal one ends the request. */
    method Complete(response: PacketEnvelope) returns (matched: bool)
      requires Valid()
      modifies this`pending, this`tickets, this`calls
      ensures Valid()
      ensures matched <==> response.responseTo in old(pending)
      ensures calls == old(calls) + if matched then
                         [Call(old(tickets)[response.responseTo], old(pending)[response.responseTo].handler, response)]
                       else []
      ensures pending
           == if IsTerminalResponse(response.messageKind) then old(pending) - {response.responseTo} else old(pending)
      ensures tickets
           == if IsTerminalResponse(response.messageKind) then old(tickets) - {response.responseTo} else old(tickets)
    {
      hide Accounted;
      if response.responseTo == 0 || response.responseTo !in pending {
        assert pending - {response.responseTo} == pending && tickets - {response.responseTo} == tickets;
        return false;
      }
      var call := Call(tickets[response.responseTo], pending[response.responseTo].handler, response);
      CallAccounted(tickets, calls, tracked, response.responseTo, call);
      calls := calls + [call];
      if IsTerminalResponse(response.messageKind) {
        pending := pending - {response.responseTo};
        tickets := tickets - {response.responseTo};
      }
      return true;
    }

    /** The selected ids in ascending order, as iterating the ordered map meets them. */
    method Collect(selected: set<nat>) returns (ids: seq<nat>)
      ensures Ascending(ids) && forall id :: id in ids <==> id in selected
    {
      ids := [];
      var remaining := selected;
      while remaining != {}
        invariant Ascending(ids)
        invariant forall id :: id in selected <==> id in ids || id in remaining
        invariant forall i, later :: 0 <= i < |ids| && later in remaining ==> ids[i] < later
        decreases remaining
      {
        LeastExists(remaining);
        var least: nat :| least in remaining && IsLeast(least, remaining);
        ids := ids + [least];
        remaining := remaining - {least};
      }
    }

    /** Give each selected request its one synthetic error, in ascending id order, and forget it. */
    method FinishAll(ids: seq<nat>, status: uint16)
      requires Valid() && Ascending(ids) && forall id :: id in ids ==> id in pending
      modifies this`pending, this`tickets, this`calls
      ensures Valid()
      ensures pending == old(pending) - ToSet(ids) && tickets == old(tickets) - ToSet(ids)
      ensures calls == old(calls) + SyntheticCalls(old(pending), old(tickets), ids, status)
    {
      hide Accounted, SyntheticResponse;
      for i := 0 to |ids|
        invariant Valid()
        invariant pending == old(pending) - ToSet(ids[..i]) && tickets == old(tickets) - ToSet(ids[..i])
        invariant calls == old(calls) + SyntheticCalls(old(pending), old(tickets), ids[..i], status)
      {
        assert ToSet(ids[..i + 1]) == ToSet(ids[..i]) + {ids[i]} by {
          assert ids[..i + 1] == ids[..i] + [ids[i]];
        }
        assert ids[i] !in ids[..i] && ids[i] in pending && pending[ids[i]] == old(pending)[ids[i]];
        var call := Call(tickets[ids[i]], pending[ids[i]].handler, SyntheticResponse(pending[ids[i]], status));
        SyntheticIsTerminal(pending[ids[i]], status);
        CallAccounted(tickets, calls, tracked, ids[i], call);
        calls := calls + [call];
        pending := pending - {ids[i]};
        tickets := tickets - {ids[i]};
      }
      assert ids[..|ids|] == ids;
    }

    method CancelByChannel(key: ChannelKey, status: uint16) returns (count: nat, ghost ids: seq<nat>)
      requires Valid()
      modifies this`pending, this`tickets, this`calls
      ensures Valid()
      ensures pending == map id | id in old(pending) && old(pending)[id].request.Key() != key :: old(pending)[id]
      ensures Ascending(ids) && forall id :: id in ids <==> id in old(pending) && old(pending)[id].request.Key() == key
      ensures calls == old(calls) + SyntheticCalls(old(pending), old(tickets), ids, status)
      ensures count == |ids|
    {
      hide Accounted, SyntheticCalls;
      var cancelled := Collect(set id | id in pending && pending[id].request.Key() == key);
      FinishAll(cancelled, status);
      count, ids := |cancelled|, cancelled;
    }

    /** Exactly the requests whose deadline is later than now stay. */
    method Expire(nowUsec: uint64) returns (count: nat, ghost ids: seq<nat>)
      requires Valid()
      modifies this`pending, this`tickets, this`calls
      ensures Valid()
      ensures pending == map id | id in old(pending) && old(pending)[id].deadlineUsec > nowUsec :: old(pending)[id]
      ensures Ascending(ids)
      ensures forall id :: id in ids <==> id in old(pending) && old(pending)[id].deadlineUsec <= nowUsec
      ensures calls == old(calls) + SyntheticCalls(old(pending), old(tickets), ids, STATUS_TIMEOUT)
      ensures count == |ids|
    {
      hide Accounted, SyntheticCalls;
      var expired := Collect(set id | id in pending && pending[id].deadlineUsec <= nowUsec);
      FinishAll(expired, STATUS_TIMEOUT);
      count, ids := |expired|, expired;
    }
  }

  // ----- why the accounts balance

  lemma SyntheticIsTerminal(p: PendingRequest, status: uint16)
    ensures IsTerminalResponse(SyntheticResponse(p, status).messageKind)
  {
  }

  lemma TrackAccounted(tickets: map<nat, nat>, calls: seq<Call>, tracked: nat, id: nat)
    requires Accounted(tickets, calls, tracked) && id !in tickets
    ensures Accounted(tickets[id := tracked], calls, tracked + 1)
  {
    hide Ended, TerminalIsLast;
    var more := tickets[id := tracked];
    assert more.Keys == tickets.Keys + {id};
    NotEndedYet(calls, tracked);
    forall ticket | 0 <= ticket < tracked + 1 ensures Ended(calls, ticket) <==> ticket !in more.Values {
      ValuesWith(tickets, id, tracked, ticket);
    }
  }

  lemma NotEndedYet(calls: seq<Call>, tracked: nat)
    requires forall i :: 0 <= i < |calls| ==> calls[i].ticket < tracked
    ensures !Ended(calls, tracked)
  {
  }

  lemma ValuesWith(tickets: map<nat, nat>, id: nat, value: nat, ticket: nat)
    requires id !in tickets
    ensures ticket in tickets[id := value].Values <==> ticket in tickets.Values || ticket == value
  {
    var more := tickets[id := value];
    assert more[id] == value;
    if ticket in tickets.Values {
      var k :| k in tickets && tickets[k] == ticket;
      assert more[k] == ticket;
    }
  }

  /** A call to a pending request's handler keeps the accounts: a terminal one ends the request. */
  lemma CallAccounted(tickets: map<nat, nat>, calls: seq<Call>, tracked: nat, id: nat, call: Call)
    requires Accounted(tickets, calls, tracked) && id in tickets && call.ticket == tickets[id]
    ensures Accounted(if Terminal(call) then tickets - {id} else tickets, calls + [call], tracked)
  {
    hide Terminal, Ended, TerminalIsLast;
    var more := calls + [call];
    assert more[..|calls|] == calls;
    assert call.ticket in tickets.Values;
    CallAfterNoEnd(calls, call);
    hide PendingOrEnded;
    CallEnds(tickets, calls, tracked, id, call);
    assert (tickets - {id}).Keys == tickets.Keys - {id};
  }

  lemma CallEnds(tickets: map<nat, nat>, calls: seq<Call>, tracked: nat, id: nat, call: Call)
    requires PendingOrEnded(tickets, calls, tracked) && id in tickets && call.ticket == tickets[id]
    requires forall i, j :: i in tickets && j in tickets && tickets[i] == tickets[j] ==> i == j
    ensures PendingOrEnded(if Terminal(call) then tickets - {id} else tickets, calls + [call], tracked)
  {
    hide Terminal, Ended;
    NotInRest(tickets, id);
    forall ticket | 0 <= ticket < tracked
      ensures Ended(calls + [call], ticket) <==> ticket !in (if Terminal(call) then tickets - {id} else tickets).Values
    {
      EndedWith(calls, call, ticket);
      ValuesWith(tickets - {id}, id, call.ticket, ticket);
      assert tickets == (tickets - {id})[id := call.ticket];
    }
  }

  lemma NotInRest(tickets: map<nat, nat>, id: nat)
    requires id in tickets && forall i, j :: i in tickets && j in tickets && tickets[i] == tickets[j] ==> i == j
    ensures tickets[id] !in (tickets - {id}).Values
  {
  }

  lemma CallAfterNoEnd(calls: seq<Call>, call: Call)
    requires TerminalIsLast(calls) && !Ended(calls, call.ticket)
    ensures TerminalIsLast(calls + [call])
  {
    hide Terminal;
  }

  lemma EndedWith(calls: seq<Call>, call: Call, ticket: nat)
    ensures Ended(calls + [call], ticket) <==> Ended(calls, ticket) || (Terminal(call) && call.ticket == ticket)
  {
    var more := calls + [call];
    if Ended(calls, ticket) {
      var i :| 0 <= i < |calls| && Terminal(calls[i]) && calls[i].ticket == ticket;
      assert more[i] == calls[i];
    }
    assert more[|calls|] == call;
  }

  /** In every state of a tracker: as many requests were tracked as got a terminal call or are pending; each
      got at most one terminal call, nothing after it, and exactly one unless it is still pending. */
  lemma EveryRequestEndsOnce(tracker: RequestTracker, ticket: nat)
    requires tracker.Valid() && ticket < tracker.tracked
    ensures tracker.tracked == TerminalCount(tracker.calls) + |tracker.pending|
    ensures TerminalCount(CallsOf(tracker.calls, ticket)) == if ticket in tracker.tickets.Values then 0 else 1
    ensures ticket !in tracker.tickets.Values ==>
              Terminal(CallsOf(tracker.calls, ticket)[|CallsOf(tracker.calls, ticket)| - 1])
  {
    hide Terminal;
    assert |tracker.tickets| == |tracker.tickets.Keys| == |tracker.pending.Keys| == |tracker.pending|;
    OneTerminalCall(tracker.calls, ticket);
  }

  /** The calls one request got, in order. */
  function CallsOf(calls: seq<Call>, ticket: nat): seq<Call> {
    if calls == [] then []
    else CallsOf(calls[..|calls| - 1], ticket)
         + if calls[|calls| - 1].ticket == ticket then [calls[|calls| - 1]] else []
  }

  lemma LastCallIsOpen(calls: seq<Call>)
    requires TerminalIsLast(calls) && calls != []
    ensures !Ended(calls[..|calls| - 1], calls[|calls| - 1].ticket)
  {
    hide Terminal;
  }

  lemma {:induction false} OneTerminalCall(calls: seq<Call>, ticket: nat)
    requires TerminalIsLast(calls)
    ensures var own := CallsOf(calls, ticket);
            && TerminalCount(own) == (if Ended(calls, ticket) then 1 else 0)
            && (Ended(calls, ticket) ==> own != [] && Terminal(own[|own| - 1]))
  {
    hide Terminal;
    if calls != [] {
      var init, call := calls[..|calls| - 1], calls[|calls| - 1];
      OneTerminalCall(init, ticket);
      assert calls == init + [call];
      EndedWith(init, call, ticket);
      var own := CallsOf(init, ticket);
      assert own + [] == own;
      if call.ticket == ticket {
        var longer := own + [call];
        assert CallsOf(calls, ticket) == longer && longer[..|longer| - 1] == own;
        assert TerminalCount(longer) == TerminalCount(own) + if Terminal(call) then 1 else 0;
        LastCallIsOpen(calls);
      }
    }
  }

  predicate IsLeast(least: nat, ids: set<nat>) {
    least in ids && forall id :: id in ids ==> least <= id
  }

  lemma {:induction false} LeastExists(ids: set<nat>)
    requires ids != {}
    ensures exists least :: IsLeast(least, ids)
  {
    var some :| some in ids;
    var rest := ids - {some};
    assert forall id :: id in ids <==> id == some || id in rest;
    if rest == {} {
      assert IsLeast(some, ids);
    } else {
      LeastExists(rest);
      var least :| IsLeast(least, rest);
      assert IsLeast(if some <= least then some else least, ids);
    }
  }

  /** A validated packet carries everything tracking needs exactly when it is a request, a cancel, or a
      stream start that happens to bring its own message id and timeout, which validation does not demand. */
  lemma ValidatedPacketsAreTrackable(options: ValidationOptions, p: PacketEnvelope)
    requires Validate(options, p) == Valid
    ensures Trackable(p) <==> IsRequestLike(p.messageKind)
                              || (p.messageKind == KIND_STREAM_START && p.messageId != 0 && p.timeoutMs != 0)
  {
  }

  // ----- kinds, deadlines and synthetic answers, spelled out

  /** A response, an error or the end of a stream is the last word; a request, the start of a stream or a cancel that
      names itself and has a timeout can be waited for. */
  lemma KindsExactly(request: PacketEnvelope, kind: uint16)
    ensures IsTerminalResponse(kind) <==> kind as int in {2, 4, 8}
    ensures Trackable(request) <==>
              request.messageKind as int in {1, 6, 9} && request.messageId != 0 && request.correlationId != 0
              && request.timeoutMs != 0
  {
  }

  /** A request is due `timeoutMs` milliseconds after its timestamp, in microseconds, as long as that fits 64 bits. */
  lemma DueExactly(request: PacketEnvelope, nowUsec: uint64)
    requires request.timestampUsec + 1000 * request.timeoutMs < 0x1_0000_0000_0000_0000
    ensures Deadline(request) <= nowUsec <==> nowUsec - request.timestampUsec >= 1000 * request.timeoutMs
  {
  }

  /** The synthetic answer to a request: an error with the status given, that names the request and repeats its
      version, session, channel, type and priority, and carries nothing else. */
  lemma SyntheticExactly(p: PendingRequest, status: uint16)
    ensures var r, q := SyntheticResponse(p, status), p.request;
            && r.messageKind == 4 && r.responseStatus == status && r.responseTo == q.messageId
            && r.correlationId == q.correlationId && r.sessionId == q.sessionId && r.traceId == q.traceId
            && r.protocolMajor == q.protocolMajor && r.protocolMinor == q.protocolMinor
            && r.channelId == q.channelId && r.channelType == q.channelType && r.packetType == q.packetType
            && r.priority == q.priority
            && r.messageId == r.sequence == r.timestampUsec == r.timeoutMs == r.flags == 0 && r.payload == []
  {
  }

  /** It is a valid packet whenever the request is one, for every status the tracker and its clients use. */
  lemma SyntheticIsValid(options: ValidationOptions, p: PendingRequest, status: uint16)
    requires Validate(options, p.request) == Valid && p.request.messageId != 0
    requires status == STATUS_TIMEOUT || status == STATUS_CANCELLED || status == STATUS_CHANNEL_UNAVAILABLE
    ensures Validate(options, SyntheticResponse(p, status)) == Valid
  {
  }
}
