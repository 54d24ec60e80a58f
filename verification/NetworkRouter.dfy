/** Channels by key, and the table of packet subscriptions. */
module NetworkRouter {
  import opened ProtocolTypes

  datatype SendStatus = Sent | ChannelClosed | ChannelNotFound | BackPressure | SendFailed

  /** A channel's own send never reports that the channel itself is unknown. */
  type ChannelAnswer = s: SendStatus | s != ChannelNotFound witness Sent

  /** A transport endpoint: whether it is open and how it answers are its environment's choice. */
  class Channel {
    const key: ChannelKey
    var open: bool
    var answer: ChannelAnswer
    var sent: seq<PacketEnvelope>

    constructor (key: ChannelKey, open: bool, answer: ChannelAnswer)
      ensures this.key == key && this.open == open && this.answer == answer && sent == []
    {
      this.key, this.open, this.answer, sent := key, open, answer, [];
    }

    method Send(packet: PacketEnvelope) returns (status: ChannelAnswer)
      modifies this
      ensures status == answer && sent == old(sent) + [packet] && open == old(open) && answer == old(answer)
    {
      sent := sent + [packet];
      status := answer;
    }
  }

  datatype RouteMatch = RouteMatch(
    channelId: Option<uint16>,
    channelType: Option<uint16>,
    messageKind: Option<uint16>,
    packetType: uint16)

  /** Who a subscription calls: a hosted module's packet handler, or some other client of the router. */
  datatype Handler = ModuleHandler(moduleId: string) | OtherHandler(id: nat)

  datatype Subscription = Subscription(route: RouteMatch, handler: Handler)

  type Table = map<nat, Subscription>

  predicate RouteMatches(route: RouteMatch, p: PacketEnvelope) {
    && (route.channelId.Some? ==> route.channelId.value == p.channelId)
    && (route.channelType.Some? ==> route.channelType.value == p.channelType)
    && (route.messageKind.Some? ==> route.messageKind.value == p.messageKind)
    && route.packetType == p.packetType
  }

  /** The handlers a packet reaches, in token order, among the tokens below `n`. */
  function Handlers(table: Table, p: PacketEnvelope, n: nat): seq<Handler> {
    if n == 0 then []
    else Handlers(table, p, n - 1)
         + if n - 1 in table && RouteMatches(table[n - 1].route, p) then [table[n - 1].handler] else []
  }

  class NetworkRouter {
    var channels: map<ChannelKey, Channel>
    var subscriptions: Table
    var nextToken: nat
    var delivered: seq<(Handler, PacketEnvelope)>

    ghost predicate Valid()
      reads this
    {
      && nextToken >= 1
      && (forall t :: t in subscriptions ==> 1 <= t < nextToken)
      && (forall k :: k in channels ==> channels[k].key == k)
    }

    constructor ()
      ensures Valid() && channels == map[] && subscriptions == map[] && delivered == []
    {
      channels, subscriptions, nextToken, delivered := map[], map[], 1, [];
    }

    method RegisterChannel(channel: Channel?) returns (ok: bool)
      requires Valid()
      modifies this`channels
      ensures Valid() && (ok <==> channel != null)
      ensures channels == if channel == null then old(channels) else old(channels)[channel.key := channel]
    {
      if channel == null {
        return false;
      }
      channels := channels[channel.key := channel];
      return true;
    }

    method Send(packet: PacketEnvelope) returns (status: SendStatus)
      requires Valid()
      modifies channels.Values
      ensures packet.Key() !in channels ==> status == ChannelNotFound
      ensures packet.Key() in channels ==>
                var c := channels[packet.Key()];
                && status == (if old(c.open) then old(c.answer) else ChannelClosed)
                && c.sent == (if old(c.open) then old(c.sent) + [packet] else old(c.sent))
                && c.open == old(c.open)
      ensures forall k :: k in channels && k != packet.Key() ==>
                channels[k].sent == old(channels[k].sent) && channels[k].open == old(channels[k].open)
    {
      if packet.Key() !in channels {
        return ChannelNotFound;
      }
      var channel := channels[packet.Key()];
      if !channel.open {
        return ChannelClosed;
      }
      assert channel in channels.Values;
      status := channel.Send(packet);
    }

    method Subscribe(route: RouteMatch, handler: Option<Handler>) returns (token: nat)
      requires Valid()
      modifies this`subscriptions, this`nextToken
      ensures Valid()
      ensures handler == None ==> token == 0 && subscriptions == old(subscriptions) && nextToken == old(nextToken)
      ensures handler.Some? ==>
                token == old(nextToken) && nextToken == token + 1
                && subscriptions == old(subscriptions)[token := Subscription(route, handler.value)]
    {
      if handler == None {
        return 0;
      }
      token := nextToken;
      nextToken := nextToken + 1;
      subscriptions := subscriptions[token := Subscription(route, handler.value)];
    }

    method Unsubscribe(token: nat)
      requires Valid()
      modifies this`subscriptions
      ensures Valid() && subscriptions == old(subscriptions) - {token}
    {
      subscriptions := subscriptions - {token};
    }

    /** The matching handlers are collected first and called afterwards. */
    method SubmitIncoming(p: PacketEnvelope)
      requires Valid()
      modifies this`delivered
      ensures var hs := Handlers(subscriptions, p, nextToken);
              delivered == old(delivered) + seq(|hs|, i requires 0 <= i < |hs| => (hs[i], p))
    {
      var handlers := [];
      for token := 0 to nextToken
        invariant handlers == Handlers(subscriptions, p, token)
      {
        if token in subscriptions && RouteMatches(subscriptions[token].route, p) {
          handlers := handlers + [subscriptions[token].handler];
        }
      }
      for i := 0 to |handlers|
        invariant delivered == old(delivered) + seq(i, j requires 0 <= j < i => (handlers[j], p))
      {
        delivered := delivered + [(handlers[i], p)];
      }
    }
  }

  /** A route admits a packet of its type that agrees with every field the route names. */
  lemma MatchesExactly(route: RouteMatch, p: PacketEnvelope)
    ensures RouteMatches(route, p) <==>
              && (route.channelId == None || route.channelId == Some(p.channelId))
              && (route.channelType == None || route.channelType == Some(p.channelType))
              && (route.messageKind == None || route.messageKind == Some(p.messageKind))
              && route.packetType == p.packetType
  {
  }
}
