/** Module manifests, and the packet subscriptions that stand for them in the router. */
module ModuleIngress {
  import opened ProtocolTypes
  import opened NetworkRouter

  datatype ModuleVersion = ModuleVersion(major: uint16, minor: uint16, patch: uint16) {
    predicate AtMost(other: ModuleVersion) {
      major < other.major
      || (major == other.major && (minor < other.minor || (minor == other.minor && patch <= other.patch)))
    }

    predicate InRange(least: ModuleVersion, most: ModuleVersion) {
      least.AtMost(this) && AtMost(most)
    }
  }

  /** A version as one number: patches count least. */
  function Rank(v: ModuleVersion): nat {
    (v.major * 0x1_0000 + v.minor) * 0x1_0000 + v.patch
  }

  lemma AtMostByRank(a: ModuleVersion, b: ModuleVersion)
    ensures a.AtMost(b) <==> Rank(a) <= Rank(b)
  {
  }

  datatype ChannelBinding = ChannelBinding(key: ChannelKey, required: bool, consumes: seq<uint16>)

  datatype PeerCompatibility = PeerCompatibility(peerModuleId: string, least: ModuleVersion, most: ModuleVersion)

  datatype ModuleManifest = ModuleManifest(
    moduleId: string,
    version: ModuleVersion,
    feature: uint64,
    roleFlags: uint32,
    supportedPlatforms: seq<string>,
    requiredModules: seq<string>,
    compatiblePeers: seq<PeerCompatibility>,
    channels: seq<ChannelBinding>)

  // ----- what a manifest declares

  function BindingRoutes(key: ChannelKey, consumes: seq<uint16>): seq<RouteMatch> {
    seq(|consumes|, i requires 0 <= i < |consumes| =>
        RouteMatch(Some(key.channelId), Some(key.channelType), None, consumes[i]))
  }

  /** One route per declared channel and consumed packet type, in declaration order. */
  function Routes(channels: seq<ChannelBinding>): seq<RouteMatch> {
    if channels == [] then []
    else
      var last := channels[|channels| - 1];
      Routes(channels[..|channels| - 1]) + BindingRoutes(last.key, last.consumes)
  }

  lemma RoutesGrow(channels: seq<ChannelBinding>, c: nat)
    requires c < |channels|
    ensures Routes(channels[..c + 1]) == Routes(channels[..c]) + BindingRoutes(channels[c].key, channels[c].consumes)
  {
    assert channels[..c + 1][..c] == channels[..c];
  }

  predicate HasConsumedPackets(manifest: ModuleManifest) {
    exists i :: 0 <= i < |manifest.channels| && manifest.channels[i].consumes != []
  }

  lemma {:induction false} ConsumingBindingHasRoutes(channels: seq<ChannelBinding>)
    ensures Routes(channels) != [] <==> exists i :: 0 <= i < |channels| && channels[i].consumes != []
  {
    if channels != [] {
      ConsumingBindingHasRoutes(channels[..|channels| - 1]);
    }
  }

  lemma ConsumersHaveRoutes(manifest: ModuleManifest)
    ensures Routes(manifest.channels) != [] <==> HasConsumedPackets(manifest)
  {
    ConsumingBindingHasRoutes(manifest.channels);
  }

  // ----- agreement of the token lists with the router's table

  /** `tokens` are the live subscriptions of one module, one for each of its routes. */
  ghost predicate Serves(table: Table, moduleId: string, tokens: seq<nat>, routes: seq<RouteMatch>) {
    && Ascending(tokens)
    && |tokens| == |routes|
    && (forall i :: 0 <= i < |tokens| ==>
          tokens[i] in table && table[tokens[i]] == Subscription(routes[i], ModuleHandler(moduleId)))
  }

  /** Registered modules have exactly the subscriptions their manifests declare; other modules have none. */
  ghost predicate Agreement(table: Table, tokensByModule: map<string, seq<nat>>,
                            manifests: map<string, ModuleManifest>)
  {
    && tokensByModule.Keys <= manifests.Keys
    && (forall m :: m in tokensByModule ==>
          tokensByModule[m] != [] && Serves(table, m, tokensByModule[m], Routes(manifests[m].channels)))
    && (forall t :: t in table && table[t].handler.ModuleHandler? ==>
          table[t].handler.moduleId in tokensByModule && t in tokensByModule[table[t].handler.moduleId])
  }

  /** The rest of the table: what other clients of the router subscribed. */
  function Others(table: Table): Table {
    map t | t in table && !table[t].handler.ModuleHandler? :: table[t]
  }

  class ModuleIngressRegistry {
    const network: NetworkRouter?
    var tokensByModule: map<string, seq<nat>>
    ghost var manifests: map<string, ModuleManifest>

    ghost predicate Valid()
      reads this, network
    {
      && (network == null ==> tokensByModule == map[])
      && (network != null ==> network.Valid() && Agreement(network.subscriptions, tokensByModule, manifests))
    }

    constructor (network: NetworkRouter?)
      requires network != null ==> network.Valid() && Others(network.subscriptions) == network.subscriptions
      ensures Valid() && this.network == network && tokensByModule == map[]
    {
      this.network := network;
      tokensByModule, manifests := map[], map[];
    }

    method UnregisterModule(moduleId: string)
      requires Valid()
      modifies this`tokensByModule, network
      ensures Valid()
      ensures tokensByModule == old(tokensByModule) - {moduleId}
      ensures network != null ==>
                && Others(network.subscriptions) == old(Others(network.subscriptions))
                && network.nextToken == old(network.nextToken)
                && network.channels == old(network.channels)
    {
      if network == null || moduleId !in tokensByModule {
        assert tokensByModule - {moduleId} == tokensByModule;
        return;
      }
      var tokens := tokensByModule[moduleId];
      ghost var table := network.subscriptions;
      for i := 0 to |tokens|
        invariant network.Valid() && network.nextToken == old(network.nextToken)
                  && network.channels == old(network.channels)
        invariant network.subscriptions == table - (set t | t in tokens[..i])
        invariant tokensByModule == old(tokensByModule)
      {
        assert tokens[..i + 1] == tokens[..i] + [tokens[i]];
        network.Unsubscribe(tokens[i]);
      }
      assert tokens[..|tokens|] == tokens;
      UnregisterAgrees(table, tokensByModule, manifests, moduleId);
      tokensByModule := tokensByModule - {moduleId};
    }

    method RegisterManifest(manifest: ModuleManifest, hasHandler: bool) returns (tokens: seq<nat>)
      requires Valid()
      modifies this, network
      ensures Valid()
      ensures network == null || manifest.moduleId == "" || !hasHandler ==>
                tokens == [] && tokensByModule == old(tokensByModule) && manifests == old(manifests)
      ensures network != null && manifest.moduleId != "" && hasHandler ==>
                && |tokens| == |Routes(manifest.channels)|
                && manifests == old(manifests)[manifest.moduleId := manifest]
                && tokensByModule == (if tokens == [] then old(tokensByModule) - {manifest.moduleId}
                                      else old(tokensByModule)[manifest.moduleId := tokens])
                && network.nextToken >= old(network.nextToken) && AllFrom(tokens, old(network.nextToken))
      ensures network != null ==>
                && Others(network.subscriptions) == old(Others(network.subscriptions))
                && network.channels == old(network.channels)
    {
      hide Agreement, Extended, Others, Routes;
      tokens := [];
      if network == null || manifest.moduleId == "" || !hasHandler {
        return;
      }
      UnregisterModule(manifest.moduleId);
      ghost var table, others := network.subscriptions, tokensByModule;
      NotYetExtended(table, manifest.moduleId, manifest.channels[..0]);
      for c := 0 to |manifest.channels|
        invariant network.Valid() && network.channels == old(network.channels)
        invariant network.nextToken >= old(network.nextToken) && AllFrom(tokens, old(network.nextToken))
        invariant Extended(table, network.subscriptions, manifest.moduleId, tokens, Routes(manifest.channels[..c]))
        invariant tokensByModule == others && manifests == old(manifests)
      {
        RoutesGrow(manifest.channels, c);
        tokens := SubscribeBinding(manifest.moduleId, manifest.channels[c], tokens, table,
                                   Routes(manifest.channels[..c]));
      }
      assert manifest.channels[..|manifest.channels|] == manifest.channels;
      RegisterAgrees(table, network.subscriptions, tokensByModule, manifests, manifest, tokens);
      manifests := manifests[manifest.moduleId := manifest];
      if tokens != [] {
        tokensByModule := tokensByModule[manifest.moduleId := tokens];
      }
    }

    /** The inner loop of registerManifest: one subscription per consumed packet type of one binding. */
    method SubscribeBinding(moduleId: string, binding: ChannelBinding, tokens: seq<nat>, ghost table: Table,
                            ghost routes: seq<RouteMatch>)
      returns (extended: seq<nat>)
      requires network != null && network.Valid()
      requires Extended(table, network.subscriptions, moduleId, tokens, routes)
      modifies network
      ensures network.Valid() && network.channels == old(network.channels)
      ensures network.nextToken >= old(network.nextToken) && |tokens| <= |extended| && extended[..|tokens|] == tokens
      ensures AllFrom(extended[|tokens|..], old(network.nextToken))
      ensures Extended(table, network.subscriptions, moduleId, extended,
                       routes + BindingRoutes(binding.key, binding.consumes))
    {
      hide Extended;
      extended := tokens;
      assert routes + BindingRoutes(binding.key, []) == routes;
      for k := 0 to |binding.consumes|
        invariant network.Valid() && network.channels == old(network.channels)
        invariant network.nextToken >= old(network.nextToken) && |tokens| <= |extended|
                  && extended[..|tokens|] == tokens
        invariant AllFrom(extended[|tokens|..], old(network.nextToken))
        invariant Extended(table, network.subscriptions, moduleId, extended,
                           routes + BindingRoutes(binding.key, binding.consumes[..k]))
      {
        var route := RouteMatch(Some(binding.key.channelId), Some(binding.key.channelType), None, binding.consumes[k]);
        ghost var current, sofar := network.subscriptions, routes + BindingRoutes(binding.key, binding.consumes[..k]);
        var token := network.Subscribe(route, Some(ModuleHandler(moduleId)));
        ExtendOnce(table, current, moduleId, extended, sofar, token, route);
        assert sofar + [route] == routes + BindingRoutes(binding.key, binding.consumes[..k + 1]);
        if token != 0 {
          extended := extended + [token];
        }
      }
      assert binding.consumes[..|binding.consumes|] == binding.consumes;
    }
  }

  ghost predicate AllFrom(tokens: seq<nat>, least: nat) {
    forall i :: 0 <= i < |tokens| ==> tokens[i] >= least
  }

  /** `after` is `before` with one new subscription per route for the module. */
  ghost predicate Extended(before: Table, after: Table, moduleId: string, tokens: seq<nat>, routes: seq<RouteMatch>) {
    && Serves(after, moduleId, tokens, routes)
    && (forall t :: t in tokens ==> t !in before)
    && (forall t :: t in after <==> t in before || t in tokens)
    && (forall t :: t in before ==> after[t] == before[t])
  }

  lemma NotYetExtended(table: Table, moduleId: string, channels: seq<ChannelBinding>)
    requires channels == []
    ensures Extended(table, table, moduleId, [], Routes(channels))
  {
  }

  lemma ExtendOnce(before: Table, after: Table, moduleId: string, tokens: seq<nat>, routes: seq<RouteMatch>,
                   token: nat, route: RouteMatch)
    requires Extended(before, after, moduleId, tokens, routes)
    requires forall t :: t in after ==> t < token
    ensures Extended(before, after[token := Subscription(route, ModuleHandler(moduleId))], moduleId, tokens + [token],
                     routes + [route])
  {
  }

  lemma UnregisterAgrees(table: Table, tokensByModule: map<string, seq<nat>>, manifests: map<string, ModuleManifest>,
                         m: string)
    requires Agreement(table, tokensByModule, manifests) && m in tokensByModule
    ensures Agreement(table - (set t | t in tokensByModule[m]), tokensByModule - {m}, manifests)
    ensures Others(table - (set t | t in tokensByModule[m])) == Others(table)
  {
    var left := table - (set t | t in tokensByModule[m]);
    forall n | n in tokensByModule && n != m ensures Serves(left, n, tokensByModule[n], Routes(manifests[n].channels)) {
      assert Serves(table, n, tokensByModule[n], Routes(manifests[n].channels));
      assert Serves(table, m, tokensByModule[m], Routes(manifests[m].channels));
    }
    assert Serves(table, m, tokensByModule[m], Routes(manifests[m].channels));
  }

  lemma StillServes(before: Table, after: Table, moduleId: string, tokens: seq<nat>, routes: seq<RouteMatch>)
    requires Serves(before, moduleId, tokens, routes)
    requires forall t :: t in before ==> t in after && after[t] == before[t]
    ensures Serves(after, moduleId, tokens, routes)
  {
  }

  lemma RegisterAgrees(before: Table, after: Table, tokensByModule: map<string, seq<nat>>,
                       manifests: map<string, ModuleManifest>, manifest: ModuleManifest, tokens: seq<nat>)
    requires Agreement(before, tokensByModule, manifests) && manifest.moduleId !in tokensByModule
    requires Extended(before, after, manifest.moduleId, tokens, Routes(manifest.channels))
    ensures Agreement(after, if tokens == [] then tokensByModule else tokensByModule[manifest.moduleId := tokens],
                      manifests[manifest.moduleId := manifest])
    ensures Others(after) == Others(before)
    ensures |tokens| == |Routes(manifest.channels)|
  {
    hide Serves, Routes, Extended;
    var routes := Routes(manifest.channels);
    ExtendedTable(before, after, manifest.moduleId, tokens, routes);
    forall n | n in tokensByModule ensures Serves(after, n, tokensByModule[n], Routes(manifests[n].channels)) {
      StillServes(before, after, n, tokensByModule[n], Routes(manifests[n].channels));
    }
  }

  lemma ExtendedTable(before: Table, after: Table, moduleId: string, tokens: seq<nat>, routes: seq<RouteMatch>)
    requires Extended(before, after, moduleId, tokens, routes)
    ensures Serves(after, moduleId, tokens, routes) && |tokens| == |routes|
    ensures forall t :: t in before ==> t in after && after[t] == before[t]
    ensures forall t :: t in after && t !in before ==> t in tokens && after[t].handler == ModuleHandler(moduleId)
    ensures tokens == [] ==> after == before
  {
    forall t | t in tokens ensures after[t].handler == ModuleHandler(moduleId) {
      var i :| 0 <= i < |tokens| && tokens[i] == t;
    }
  }

  // ----- deliveries

  function CountOf(handlers: seq<Handler>, moduleId: string): nat {
    if handlers == [] then 0
    else CountOf(handlers[..|handlers| - 1], moduleId)
         + if handlers[|handlers| - 1] == ModuleHandler(moduleId) then 1 else 0
  }

  lemma OneMoreHandler(handlers: seq<Handler>, handler: Handler, moduleId: string)
    ensures CountOf(handlers + [handler], moduleId)
         == CountOf(handlers, moduleId) + if handler == ModuleHandler(moduleId) then 1 else 0
  {
    assert (handlers + [handler])[..|handlers|] == handlers;
  }

  function CountMatching(routes: seq<RouteMatch>, p: PacketEnvelope): nat {
    if routes == [] then 0
    else CountMatching(routes[..|routes| - 1], p) + if RouteMatches(routes[|routes| - 1], p) then 1 else 0
  }

  /** `tokens` are all of the module's subscriptions below `n`. */
  ghost predicate AllBelow(table: Table, n: nat, m: string, tokens: seq<nat>) {
    forall t :: t in tokens <==> t in table && t < n && table[t].handler == ModuleHandler(m)
  }

  lemma LastToken(table: Table, n: nat, m: string, tokens: seq<nat>, routes: seq<RouteMatch>)
    requires Serves(table, m, tokens, routes) && AllBelow(table, n + 1, m, tokens) && n in tokens
    ensures |tokens| == |routes| > 0 && n in table && table[n] == Subscription(routes[|routes| - 1], ModuleHandler(m))
    ensures Serves(table, m, tokens[..|tokens| - 1], routes[..|routes| - 1])
            && AllBelow(table, n, m, tokens[..|tokens| - 1])
  {
    var last := |tokens| - 1;
    assert tokens[last] in tokens;
    assert tokens[last] == n;
    assert tokens == tokens[..last] + [n];
  }

  lemma {:induction false} DeliveriesBelow(table: Table, p: PacketEnvelope, n: nat, m: string, tokens: seq<nat>,
                                           routes: seq<RouteMatch>)
    requires Serves(table, m, tokens, routes) && AllBelow(table, n, m, tokens)
    ensures CountOf(Handlers(table, p, n), m) == CountMatching(routes, p)
  {
    hide Serves, AllBelow, CountOf, RouteMatches;
    if n == 0 {
      NothingBelowZero(table, m, tokens, routes);
    } else {
      var before := Handlers(table, p, n - 1);
      assert before + [] == before;
      if n - 1 in tokens {
        LastToken(table, n - 1, m, tokens, routes);
        DeliveriesBelow(table, p, n - 1, m, tokens[..|tokens| - 1], routes[..|routes| - 1]);
        OneMoreHandler(before, table[n - 1].handler, m);
      } else {
        AnotherToken(table, n - 1, m, tokens);
        DeliveriesBelow(table, p, n - 1, m, tokens, routes);
        if n - 1 in table {
          OneMoreHandler(before, table[n - 1].handler, m);
        }
      }
    }
  }

  lemma AnotherToken(table: Table, n: nat, m: string, tokens: seq<nat>)
    requires AllBelow(table, n + 1, m, tokens) && n !in tokens
    ensures AllBelow(table, n, m, tokens)
    ensures n in table ==> table[n].handler != ModuleHandler(m)
  {
  }

  lemma NothingBelowZero(table: Table, m: string, tokens: seq<nat>, routes: seq<RouteMatch>)
    requires Serves(table, m, tokens, routes) && AllBelow(table, 0, m, tokens)
    ensures tokens == [] && routes == [] && CountOf([], m) == 0
  {
    if tokens != [] {
      SomeBelow(table, 0, m, tokens);
    }
  }

  lemma SomeBelow(table: Table, n: nat, m: string, tokens: seq<nat>)
    requires AllBelow(table, n, m, tokens) && tokens != []
    ensures n > 0
  {
    assert tokens[0] in tokens;
  }

  lemma {:induction false} NoDeliveries(table: Table, p: PacketEnvelope, n: nat, m: string)
    requires forall t :: t in table ==> table[t].handler != ModuleHandler(m)
    ensures CountOf(Handlers(table, p, n), m) == 0
  {
    if n > 0 {
      NoDeliveries(table, p, n - 1, m);
      var before := Handlers(table, p, n - 1);
      assert before + [] == before;
      if n - 1 in table {
        OneMoreHandler(before, table[n - 1].handler, m);
      }
    }
  }

  /** How often the channels declare the packet: once for each time a binding of its channel lists its type. */
  function Declared(channels: seq<ChannelBinding>, p: PacketEnvelope): nat {
    if channels == [] then 0
    else
      var last := channels[|channels| - 1];
      Declared(channels[..|channels| - 1], p)
      + if last.key.channelId == p.channelId && last.key.channelType == p.channelType then
        multiset(last.consumes)[p.packetType] else 0
  }

  lemma {:induction false} MatchesAreDeclared(channels: seq<ChannelBinding>, p: PacketEnvelope)
    ensures CountMatching(Routes(channels), p) == Declared(channels, p)
  {
    if channels != [] {
      hide RouteMatches;
      var init, last := channels[..|channels| - 1], channels[|channels| - 1];
      MatchesAreDeclared(init, p);
      MatchesConcat(Routes(init), BindingRoutes(last.key, last.consumes), p);
      BindingMatches(last.key, last.consumes, p);
    }
  }

  lemma {:induction false} MatchesConcat(a: seq<RouteMatch>, b: seq<RouteMatch>, p: PacketEnvelope)
    ensures CountMatching(a + b, p) == CountMatching(a, p) + CountMatching(b, p)
  {
    if b == [] {
      assert a + b == a;
    } else {
      assert (a + b)[..|a + b| - 1] == a + b[..|b| - 1];
      MatchesConcat(a, b[..|b| - 1], p);
    }
  }

  lemma {:induction false} BindingMatches(key: ChannelKey, consumes: seq<uint16>, p: PacketEnvelope)
    ensures CountMatching(BindingRoutes(key, consumes), p)
         == if key.channelId == p.channelId && key.channelType == p.channelType then multiset(consumes)[p.packetType]
           else 0
  {
    if consumes != [] {
      var init, last := consumes[..|consumes| - 1], consumes[|consumes| - 1];
      BindingMatches(key, init, p);
      var routes := BindingRoutes(key, consumes);
      assert routes[..|routes| - 1] == BindingRoutes(key, init);
      assert consumes == init + [last];
    }
  }

  lemma NothingDeclared(manifest: ModuleManifest, p: PacketEnvelope)
    ensures !HasConsumedPackets(manifest) ==> Declared(manifest.channels, p) == 0
  {
    hide Routes, HasConsumedPackets;
    ConsumersHaveRoutes(manifest);
    MatchesAreDeclared(manifest.channels, p);
  }

  /** An incoming packet reaches a registered module exactly as often as the module's manifest declares it,
      and an unregistered module never. */
  lemma DeliversAsDeclared(table: Table, nextToken: nat, tokensByModule: map<string, seq<nat>>,
                           manifests: map<string, ModuleManifest>, p: PacketEnvelope, m: string)
    requires Agreement(table, tokensByModule, manifests) && forall t :: t in table ==> t < nextToken
    ensures CountOf(Handlers(table, p, nextToken), m)
         == if m in tokensByModule then Declared(manifests[m].channels, p) else 0
  {
    if m in tokensByModule {
      var tokens, routes := tokensByModule[m], Routes(manifests[m].channels);
      assert Serves(table, m, tokens, routes);
      DeliveriesBelow(table, p, nextToken, m, tokens, routes);
      MatchesAreDeclared(manifests[m].channels, p);
    } else {
      NoDeliveries(table, p, nextToken, m);
    }
  }
}
