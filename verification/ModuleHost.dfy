/** Hosted modules: the transactional batch start, reconnect replay and stop. */
module ModuleHost {
  import opened ProtocolTypes
  import opened CapabilityNegotiation
  import opened NetworkRouter
  import opened ChannelRegistry
  import opened ModuleIngress

  datatype ModuleState = Mounted | Running | Stopped | StartFailed

  datatype HostedModule = HostedModule(manifest: ModuleManifest, state: ModuleState)

  /** What the host asks of its modules, in order; `ok` is the module's answer. */
  datatype Call = AttachCall(moduleId: string, ok: bool) | StartCall(moduleId: string, ok: bool)
    | StopCall(moduleId: string, force: bool)

  datatype DenyReason =
    | NoReason
    | FeatureNotLicensed
    | FeatureDisabledByPolicy
    | MissingDependency
    | ModuleVersionMismatch
    | RuntimeHealthBlocked

  datatype Decision = Decision(allowed: bool, reason: DenyReason)

  datatype ModuleStartReport = ModuleStartReport(moduleId: string, started: bool, decision: Decision)

  datatype IngressReplayReport = IngressReplayReport(moduleId: string, replayed: bool, tokenCount: nat)

  // ----- policy

  datatype StaticPolicy = StaticPolicy(licensed: uint64, features: uint64) {
    function AuthorizeModule(manifest: ModuleManifest): Decision {
      var effective := And(And(manifest.feature, licensed), features);
      if And(licensed, manifest.feature) != manifest.feature then Decision(false, FeatureNotLicensed)
      else if And(features, manifest.feature) != manifest.feature then Decision(false, FeatureDisabledByPolicy)
      else if And(effective, manifest.feature) != manifest.feature then Decision(false, FeatureDisabledByPolicy)
      else Decision(true, NoReason)
    }
  }

  predicate SupportsRole(manifest: ModuleManifest, role: uint32)
    requires role != 0
  {
    manifest.roleFlags == 0 || HasFlag(manifest.roleFlags, role)
  }

  predicate SupportsPlatform(manifest: ModuleManifest, platform: string) {
    manifest.supportedPlatforms == [] || platform in manifest.supportedPlatforms
  }

  // ----- peer versions

  datatype ModulePeerVersion = ModulePeerVersion(moduleId: string, version: ModuleVersion)

  /** The first declaration for the peer's id decides. */
  predicate DeclaredCompatible(declared: seq<PeerCompatibility>, peer: ModulePeerVersion) {
    if declared == [] then false
    else if declared[0].peerModuleId == peer.moduleId then peer.version.InRange(declared[0].least, declared[0].most)
    else DeclaredCompatible(declared[1..], peer)
  }

  predicate CheckModuleCompatibility(manifest: ModuleManifest, peer: ModulePeerVersion) {
    manifest.moduleId != "" && peer.moduleId != "" && DeclaredCompatible(manifest.compatiblePeers, peer)
  }

  predicate Accepts(manifest: ModuleManifest, peerModuleId: string, peer: ModulePeerVersion) {
    peer.moduleId == peerModuleId && CheckModuleCompatibility(manifest, peer)
  }

  ghost predicate Satisfied(manifest: ModuleManifest, peerModuleId: string, peers: seq<ModulePeerVersion>) {
    exists j :: 0 <= j < |peers| && Accepts(manifest, peerModuleId, peers[j])
  }

  /** Some expected peer module reported no compatible version, although peers did report versions. */
  ghost predicate PeersBlock(manifest: ModuleManifest, peers: seq<ModulePeerVersion>) {
    && peers != []
    && exists i :: 0 <= i < |manifest.compatiblePeers| &&
         !Satisfied(manifest, manifest.compatiblePeers[i].peerModuleId, peers)
  }

  method EvaluatePeerVersions(manifest: ModuleManifest, peers: seq<ModulePeerVersion>)
    returns (blocked: bool, accepted: seq<ModulePeerVersion>)
    ensures blocked <==> PeersBlock(manifest, peers)
    ensures forall i :: 0 <= i < |accepted| ==>
              accepted[i] in peers && i < |manifest.compatiblePeers|
              && Accepts(manifest, manifest.compatiblePeers[i].peerModuleId, accepted[i])
    ensures !blocked ==> |accepted| == if peers == [] then 0 else |manifest.compatiblePeers|
  {
    accepted := [];
    if peers == [] || manifest.compatiblePeers == [] {
      return false, [];
    }
    for i := 0 to |manifest.compatiblePeers|
      invariant |accepted| == i
      invariant forall k :: 0 <= k < i ==>
                  accepted[k] in peers && Accepts(manifest, manifest.compatiblePeers[k].peerModuleId, accepted[k])
      invariant forall k :: 0 <= k < i ==> Satisfied(manifest, manifest.compatiblePeers[k].peerModuleId, peers)
    {
      var expected := manifest.compatiblePeers[i].peerModuleId;
      var found, compatible := false, false;
      for j := 0 to |peers|
        invariant compatible ==> found
        invariant !compatible && |accepted| == i
        invariant forall k :: 0 <= k < i ==>
                    accepted[k] in peers && Accepts(manifest, manifest.compatiblePeers[k].peerModuleId, accepted[k])
        invariant forall k :: 0 <= k < j ==> !Accepts(manifest, expected, peers[k])
      {
        if peers[j].moduleId != expected {
          continue;
        }
        found, compatible := true, CheckModuleCompatibility(manifest, peers[j]);
        if compatible {
          assert Accepts(manifest, expected, peers[j]);
          accepted := accepted + [peers[j]];
          break;
        }
      }
      if !found || !compatible {
        assert !Satisfied(manifest, expected, peers);
        return true, accepted;
      }
    }
    return false, accepted;
  }

  // ----- what a batch start is to do

  datatype StartPlan = StartPlan(
    order: seq<string>,
    manifests: seq<ModuleManifest>,
    decisions: seq<Decision>,
    healthy: set<string>,
    networked: bool)
  {
    predicate Valid() {
      && |order| == |manifests| == |decisions|
      && (forall i :: 0 <= i < |order| ==> manifests[i].moduleId == order[i])
      && (forall i, j :: 0 <= i < j < |order| ==> order[i] != order[j])
    }

    predicate Consumes(i: nat)
      requires Valid() && i < |order|
    {
      HasConsumedPackets(manifests[i])
    }

    /** The module is allowed, its own start succeeds, and so does its ingress. */
    predicate Succeeds(i: nat)
      requires Valid() && i < |order|
    {
      decisions[i].allowed && order[i] in healthy && (Consumes(i) ==> networked)
    }

    function StateAfter(i: nat, before: ModuleState): ModuleState
      requires Valid() && i < |order|
    {
      if !decisions[i].allowed then before
      else if order[i] !in healthy then StartFailed
      else if Consumes(i) && !networked then Stopped
      else Running
    }

    function CallsOf(i: nat): seq<Call>
      requires Valid() && i < |order|
    {
      if !decisions[i].allowed then []
      else if order[i] !in healthy then [StartCall(order[i], false)]
      else if Consumes(i) && !networked then [StartCall(order[i], true), StopCall(order[i], false)]
      else [StartCall(order[i], true)]
    }

    function CallsBelow(n: nat): seq<Call>
      requires Valid() && n <= |order|
    {
      if n == 0 then [] else CallsBelow(n - 1) + CallsOf(n - 1)
    }

    function ServedBelow(n: nat): set<string>
      requires Valid() && n <= |order|
    {
      if n == 0 then {} else ServedBelow(n - 1) + if Succeeds(n - 1) && Consumes(n - 1) then {order[n - 1]} else {}
    }

    function ReportOf(i: nat): ModuleStartReport
      requires Valid() && i < |order|
    {
      ModuleStartReport(order[i], Succeeds(i),
                        if decisions[i].allowed && !Succeeds(i) then Decision(false, RuntimeHealthBlocked)
                        else decisions[i])
    }

    lemma ReportTells(i: nat)
      requires Valid() && i < |order|
      ensures ReportOf(i).started == Succeeds(i) && (Succeeds(i) ==> decisions[i].allowed)
    {
    }

    ghost predicate Preflighted()
      requires Valid()
    {
      forall i :: 0 <= i < |order| ==> decisions[i].allowed
    }

    ghost predicate SucceedsBelow(n: nat)
      requires Valid() && n <= |order|
    {
      forall i :: 0 <= i < n ==> Succeeds(i)
    }
  }

  /** How many modules of a batch that may not be partial start before it completes or gives up. */
  ghost function Reached(plan: StartPlan): (k: nat)
    requires plan.Valid()
    ensures k <= |plan.order|
    ensures plan.Preflighted() ==> plan.SucceedsBelow(k) && (k == |plan.order| || !plan.Succeeds(k))
    ensures !plan.Preflighted() ==> k == 0
  {
    if plan.Preflighted() then Leading(plan, |plan.order|) else 0
  }

  ghost function Leading(plan: StartPlan, n: nat): (k: nat)
    requires plan.Valid() && n <= |plan.order|
    ensures k <= n && plan.SucceedsBelow(k) && (k == n || !plan.Succeeds(k))
  {
    if n == 0 then 0
    else if Leading(plan, n - 1) == n - 1 && plan.Succeeds(n - 1) then n
    else Leading(plan, n - 1)
  }

  /** Stop calls for the named modules, last started first. */
  function StopsOf(ids: seq<string>, force: bool): seq<Call> {
    if ids == [] then [] else StopsOf(ids[1..], force) + [StopCall(ids[0], force)]
  }

  // ----- what the host looks like from outside

  datatype HostView = HostView(modules: map<string, HostedModule>, served: set<string>, calls: seq<Call>)

  /** The first `n` modules of the plan were attempted and the rest left alone. */
  ghost predicate Attempted(plan: StartPlan, before: HostView, after: HostView, n: nat)
    requires plan.Valid() && n <= |plan.order|
  {
    && StatesAttempted(plan, before.modules, after.modules, n)
    && after.served == before.served + plan.ServedBelow(n)
    && after.calls == before.calls + plan.CallsBelow(n)
  }

  ghost predicate StatesAttempted(plan: StartPlan, before: map<string, HostedModule>, after: map<string, HostedModule>,
                                  n: nat)
    requires plan.Valid() && n <= |plan.order|
  {
    && after.Keys == before.Keys
    && (forall i :: 0 <= i < |plan.order| ==> plan.order[i] in before)
    && (forall i :: 0 <= i < |plan.order| ==>
          after[plan.order[i]] ==
          if i < n then before[plan.order[i]].(state := plan.StateAfter(i, before[plan.order[i]].state))
          else before[plan.order[i]])
  }

  lemma NothingAttempted(plan: StartPlan, start: HostView)
    requires plan.Valid() && forall i :: 0 <= i < |plan.order| ==> plan.order[i] in start.modules
    ensures Attempted(plan, start, start, 0)
  {
  }

  lemma StillHosted(plan: StartPlan, start: HostView, before: HostView, i: nat)
    requires plan.Valid() && i < |plan.order| && Attempted(plan, start, before, i)
    ensures forall k :: 0 <= k < |plan.order| ==> plan.order[k] in before.modules
    ensures before.modules[plan.order[i]] == start.modules[plan.order[i]]
  {
  }

  lemma StateOnce(plan: StartPlan, start: map<string, HostedModule>, before: map<string, HostedModule>, i: nat,
                  id: string)
    requires plan.Valid() && i < |plan.order| && StatesAttempted(plan, start, before, i) && id == plan.order[i]
    ensures StatesAttempted(plan, start, WithState(before, id, plan.StateAfter(i, before[id].state)), i + 1)
  {
    hide StartPlan.StateAfter;
  }

  lemma AttemptOnce(plan: StartPlan, start: HostView, before: HostView, after: HostView, i: nat)
    requires plan.Valid() && i < |plan.order| && Attempted(plan, start, before, i)
    requires var id := plan.order[i];
             after == HostView(WithState(before.modules, id, plan.StateAfter(i, before.modules[id].state)),
                               before.served + (if plan.Succeeds(i) && plan.Consumes(i) then {id} else {}),
                               before.calls + plan.CallsOf(i))
    ensures Attempted(plan, start, after, i + 1)
  {
    hide StatesAttempted, StartPlan.Succeeds, StartPlan.Consumes, StartPlan.CallsOf, StartPlan.StateAfter;
    StateOnce(plan, start.modules, before.modules, i, plan.order[i]);
  }

  /** Modules `ids` were stopped, last first, and serve no packets any more. */
  ghost predicate StoppedInReverse(ids: seq<string>, force: bool, before: HostView, after: HostView) {
    && after.modules.Keys == before.modules.Keys
    && (forall id :: id in before.modules ==>
          after.modules[id] == if id in ids then before.modules[id].(state := Stopped) else before.modules[id])
    && after.served == before.served - (set id | id in ids)
    && after.calls == before.calls + StopsOf(ids, force)
  }

  lemma StopOnce(ids: seq<string>, force: bool, start: HostView, before: HostView, after: HostView)
    requires ids != [] && ids[0] in start.modules && StoppedInReverse(ids[1..], force, start, before)
    requires after == HostView(before.modules[ids[0] := before.modules[ids[0]].(state := Stopped)],
                               before.served - {ids[0]}, before.calls + [StopCall(ids[0], force)])
    ensures StoppedInReverse(ids, force, start, after)
  {
  }

  ghost predicate AllReported(plan: StartPlan, reports: seq<ModuleStartReport>)
    requires plan.Valid()
  {
    |reports| == |plan.order| && forall i :: 0 <= i < |reports| ==> reports[i] == plan.ReportOf(i)
  }

  /** The report of a module that a failing batch passed over. */
  function Refused(moduleId: string, decision: Decision): ModuleStartReport {
    ModuleStartReport(moduleId, false, if decision.allowed then Decision(false, RuntimeHealthBlocked) else decision)
  }

  ghost predicate AllRefused(plan: StartPlan, reports: seq<ModuleStartReport>)
    requires plan.Valid()
  {
    && |reports| == |plan.order|
    && (forall i :: 0 <= i < |reports| ==>
          reports[i] == Refused(plan.order[i], plan.decisions[i]))
  }

  /** The batch failed at module `k`: the modules before it had started and were all rolled back. */
  ghost predicate RolledBack(plan: StartPlan, before: HostView, after: HostView, k: nat)
    requires plan.Valid() && k < |plan.order|
  {
    && plan.Preflighted() && plan.SucceedsBelow(k) && !plan.Succeeds(k)
    && exists middle :: Attempted(plan, before, middle, k + 1) && StoppedInReverse(plan.order[..k], true, middle, after)
  }

  ghost predicate BatchOutcome(plan: StartPlan, partial: bool, before: HostView, after: HostView,
                               reports: seq<ModuleStartReport>)
    requires plan.Valid()
  {
    if partial || plan.SucceedsBelow(|plan.order|) then
      Attempted(plan, before, after, |plan.order|) && AllReported(plan, reports)
    else if !plan.Preflighted() then
      after == before && AllRefused(plan, reports)
    else
      AllRefused(plan, reports) && exists k :: 0 <= k < |plan.order| && RolledBack(plan, before, after, k)
  }

  /** The modules are listed once each, in the order they were added, under their own ids. */
  ghost predicate Hosted(modules: map<string, HostedModule>, order: seq<string>) {
    && (forall i, j :: 0 <= i < j < |order| ==> order[i] != order[j])
    && (forall id :: id in order <==> id in modules)
    && (forall id :: id in modules ==> id != "" && modules[id].manifest.moduleId == id)
  }

  /** Only hosted consumers are registered, under their own manifests, and a running consumer always is. */
  ghost predicate ServiceAgrees(modules: map<string, HostedModule>, tokensByModule: map<string, seq<nat>>,
                                manifests: map<string, ModuleManifest>) {
    && (forall id :: id in tokensByModule ==>
          id in modules && HasConsumedPackets(modules[id].manifest) && id in manifests
            && manifests[id] == modules[id].manifest)
    && (forall id :: id in modules && modules[id].state == Running && HasConsumedPackets(modules[id].manifest) ==>
          id in tokensByModule)
  }

  function ManifestsOf(modules: map<string, HostedModule>, order: seq<string>): seq<ModuleManifest>
    requires forall i :: 0 <= i < |order| ==> order[i] in modules
  {
    seq(|order|, i requires 0 <= i < |order| => modules[order[i]].manifest)
  }

  function WithState(modules: map<string, HostedModule>, id: string, state: ModuleState): map<string, HostedModule>
    requires id in modules
  {
    modules[id := modules[id].(state := state)]
  }

  lemma WithStateHosted(modules: map<string, HostedModule>, order: seq<string>, id: string, state: ModuleState)
    requires Hosted(modules, order) && id in modules
    ensures Hosted(WithState(modules, id, state), order)
  {
  }

  lemma OrderIsHosted(modules: map<string, HostedModule>, order: seq<string>)
    requires Hosted(modules, order)
    ensures forall i :: 0 <= i < |order| ==> order[i] in modules
  {
  }

  lemma ListedByOwnId(modules: map<string, HostedModule>, order: seq<string>, id: string)
    requires Hosted(modules, order) && id in modules
    ensures id != "" && modules[id].manifest.moduleId == id
  {
  }

  lemma NotRunningAgrees(modules: map<string, HostedModule>, tokensByModule: map<string, seq<nat>>,
                         manifests: map<string, ModuleManifest>, id: string, state: ModuleState)
    requires ServiceAgrees(modules, tokensByModule, manifests) && id in modules && state != Running
    ensures ServiceAgrees(WithState(modules, id, state), tokensByModule, manifests)
    ensures ServiceAgrees(WithState(modules, id, state), tokensByModule - {id}, manifests)
  {
  }

  lemma RunningAgrees(modules: map<string, HostedModule>, tokensByModule: map<string, seq<nat>>,
                      manifests: map<string, ModuleManifest>, id: string)
    requires ServiceAgrees(modules, tokensByModule, manifests) && id in modules
             && !HasConsumedPackets(modules[id].manifest)
    ensures ServiceAgrees(WithState(modules, id, Running), tokensByModule, manifests)
  {
  }

  lemma ServedAgrees(modules: map<string, HostedModule>, tokensByModule: map<string, seq<nat>>,
                     manifests: map<string, ModuleManifest>, id: string, tokens: seq<nat>)
    requires ServiceAgrees(modules, tokensByModule, manifests) && id in modules
             && HasConsumedPackets(modules[id].manifest)
    ensures ServiceAgrees(WithState(modules, id, Running), tokensByModule[id := tokens],
                          manifests[id := modules[id].manifest])
  {
  }

  class ModuleHost {
    const ingress: ModuleIngressRegistry
    const channels: ChannelRegistry?
    const policy: Option<StaticPolicy>
    const role: uint32
    const platform: string
    var modules: map<string, HostedModule>
    var moduleOrder: seq<string>
    var calls: seq<Call>

    ghost predicate Valid()
      reads this, ingress, ingress.network
    {
      ingress.Valid() && role != 0 && Hosted(modules, moduleOrder)
        && ServiceAgrees(modules, ingress.tokensByModule, ingress.manifests)
    }

    ghost function View(): HostView
      reads this, ingress
    {
      HostView(modules, ingress.tokensByModule.Keys, calls)
    }

    /** What no module operation touches: the other subscriptions and the channels of the router. */
    twostate predicate RouterKept()
      reads ingress.network
    {
      ingress.network != null ==>
        && Others(ingress.network.subscriptions) == old(Others(ingress.network.subscriptions))
        && ingress.network.channels == old(ingress.network.channels)
    }

    constructor (network: NetworkRouter?, channels: ChannelRegistry?, policy: Option<StaticPolicy>, role: uint32,
                 platform: string)
      requires network != null ==> network.Valid() && Others(network.subscriptions) == network.subscriptions
      requires role != 0
      ensures Valid() && fresh(ingress) && ingress.network == network && this.channels == channels
              && this.policy == policy
      ensures this.role == role && this.platform == platform
      ensures modules == map[] && moduleOrder == [] && calls == []
    {
      this.channels, this.policy, this.role, this.platform := channels, policy, role, platform;
      modules, moduleOrder, calls := map[], [], [];
      ingress := new ModuleIngressRegistry(network);
    }

    /** `attached` is the module's own answer; it is asked only when the session suits the module. */
    method AddModule(manifest: ModuleManifest, attached: bool) returns (added: bool)
      requires Valid()
      modifies this`modules, this`moduleOrder, this`calls
      ensures Valid()
      ensures var id := manifest.moduleId;
              var asked := id != "" && id !in old(modules) && SupportsRole(manifest, role)
                && SupportsPlatform(manifest, platform);
              && (added <==> asked && attached)
              && calls == old(calls) + (if asked then [AttachCall(id, attached)] else [])
              && modules == (if added then old(modules)[id := HostedModule(manifest, Mounted)] else old(modules))
              && moduleOrder == old(moduleOrder) + (if added then [id] else [])
    {
      var id := manifest.moduleId;
      if id == "" || id in modules || !SupportsRole(manifest, role) || !SupportsPlatform(manifest, platform) {
        return false;
      }
      calls := calls + [AttachCall(id, attached)];
      if !attached {
        return false;
      }
      modules := modules[id := HostedModule(manifest, Mounted)];
      moduleOrder := moduleOrder + [id];
      return true;
    }

    // ----- preflight

    ghost predicate ChannelMissing(manifest: ModuleManifest)
      reads channels
    {
      channels != null
      && exists i :: 0 <= i < |manifest.channels| && manifest.channels[i].required &&
           !channels.IsReady(manifest.channels[i].key)
    }

    ghost function Preflight(manifest: ModuleManifest, peers: seq<ModulePeerVersion>): Decision
      reads this`modules, channels
    {
      if exists i :: 0 <= i < |manifest.requiredModules| && manifest.requiredModules[i] !in modules then
        Decision(false, MissingDependency)
      else if ChannelMissing(manifest) then Decision(false, MissingDependency)
      else if PeersBlock(manifest, peers) then Decision(false, ModuleVersionMismatch)
      else if policy.Some? then policy.value.AuthorizeModule(manifest)
      else Decision(true, NoReason)
    }

    method Authorize(manifest: ModuleManifest, peers: seq<ModulePeerVersion>) returns (decision: Decision)
      ensures decision == Preflight(manifest, peers)
    {
      hide PeersBlock;
      for i := 0 to |manifest.requiredModules|
        invariant forall k :: 0 <= k < i ==> manifest.requiredModules[k] in modules
      {
        if manifest.requiredModules[i] !in modules {
          return Decision(false, MissingDependency);
        }
      }
      if channels != null {
        for i := 0 to |manifest.channels|
          invariant forall k :: 0 <= k < i ==> manifest.channels[k].required ==>
                      channels.IsReady(manifest.channels[k].key)
        {
          if manifest.channels[i].required && !channels.IsReady(manifest.channels[i].key) {
            return Decision(false, MissingDependency);
          }
        }
      }
      var blocked, _ := EvaluatePeerVersions(manifest, peers);
      if blocked {
        return Decision(false, ModuleVersionMismatch);
      }
      if policy.Some? {
        return policy.value.AuthorizeModule(manifest);
      }
      return Decision(true, NoReason);
    }

    ghost function Decisions(manifests: seq<ModuleManifest>, peers: seq<ModulePeerVersion>): (decisions: seq<Decision>)
      reads this`modules, channels
      ensures |decisions| == |manifests|
      ensures forall i :: 0 <= i < |manifests| ==> decisions[i] == Preflight(manifests[i], peers)
    {
      if manifests == [] then []
      else Decisions(manifests[..|manifests| - 1], peers) + [Preflight(manifests[|manifests| - 1], peers)]
    }

    // ----- batch start

    ghost function PlanOf(peers: seq<ModulePeerVersion>, healthy: set<string>): (plan: StartPlan)
      requires Valid()
      reads this, ingress, ingress.network, channels
      ensures plan.Valid()
    {
      var manifests := ManifestsOf(modules, moduleOrder);
      StartPlan(moduleOrder, manifests, Decisions(manifests, peers), healthy, ingress.network != null)
    }

    /** One turn of the start loop, without the rollback. */
    method StartOne(ghost plan: StartPlan, i: nat, allowed: Decision, healthy: set<string>)
      returns (report: ModuleStartReport)
      requires Valid() && plan.Valid() && i < |plan.order| && plan.order == moduleOrder
      requires moduleOrder[i] in modules && plan.manifests[i] == modules[moduleOrder[i]].manifest
      requires plan.decisions[i] == allowed && plan.healthy == healthy && (plan.networked <==> ingress.network != null)
      modifies this`modules, this`calls, ingress, ingress.network
      ensures Valid() && RouterKept()
      ensures report == plan.ReportOf(i)
      ensures modules == WithState(old(modules), moduleOrder[i], plan.StateAfter(i, old(modules)[moduleOrder[i]].state))
      ensures calls == old(calls) + plan.CallsOf(i)
      ensures ingress.tokensByModule.Keys
           == old(ingress.tokensByModule.Keys) + if plan.Succeeds(i) && plan.Consumes(i) then {moduleOrder[i]} else {}
    {
      hide Hosted, ServiceAgrees, Agreement, Others, HasConsumedPackets, Routes;
      var id := moduleOrder[i];
      var manifest := modules[id].manifest;
      if !allowed.allowed {
        return ModuleStartReport(id, false, allowed);
      }
      ghost var was, tokensBefore, manifestsBefore := modules, ingress.tokensByModule, ingress.manifests;
      ListedByOwnId(was, moduleOrder, id);
      WithStateHosted(was, moduleOrder, id, plan.StateAfter(i, was[id].state));
      var started := id in healthy;
      calls := calls + [StartCall(id, started)];
      modules := WithState(modules, id, if started then Running else StartFailed);
      report := ModuleStartReport(id, started, if started then allowed else Decision(false, RuntimeHealthBlocked));
      if !started {
        NotRunningAgrees(was, tokensBefore, manifestsBefore, id, StartFailed);
      } else if !HasConsumedPackets(manifest) {
        RunningAgrees(was, tokensBefore, manifestsBefore, id);
      } else {
        var tokens := ingress.RegisterManifest(manifest, true);
        ConsumersHaveRoutes(manifest);
        if tokens == [] {
          calls := calls + [StopCall(id, false)];
          modules := WithState(modules, id, Stopped);
          report := ModuleStartReport(id, false, Decision(false, RuntimeHealthBlocked));
          NotRunningAgrees(was, tokensBefore, manifestsBefore, id, Stopped);
          assert modules == WithState(was, id, Stopped);
        } else {
          ServedAgrees(was, tokensBefore, manifestsBefore, id, tokens);
        }
      }
    }

    /** Unregister and stop each named module, last first: the rollback of a batch, and stopAll. */
    method StopInReverse(ids: seq<string>, force: bool)
      requires Valid() && forall i :: 0 <= i < |ids| ==> ids[i] in modules
      modifies this`modules, this`calls, ingress, ingress.network
      ensures Valid() && RouterKept()
      ensures StoppedInReverse(ids, force, old(View()), View())
    {
      hide Hosted, ServiceAgrees, Agreement, Others;
      for i := |ids| downto 0
        invariant Valid() && RouterKept() && modules.Keys == old(modules.Keys)
        invariant StoppedInReverse(ids[i..], force, old(View()), View())
      {
        hide StoppedInReverse;
        ghost var before := View();
        var id := ids[i];
        WithStateHosted(modules, moduleOrder, id, Stopped);
        NotRunningAgrees(modules, ingress.tokensByModule, ingress.manifests, id, Stopped);
        ingress.UnregisterModule(id);
        calls := calls + [StopCall(id, force)];
        modules := WithState(modules, id, Stopped);
        StopOnce(ids[i..], force, old(View()), before, View());
      }
      assert ids[0..] == ids;
    }

    method PreflightAll(peers: seq<ModulePeerVersion>) returns (decisions: seq<Decision>, failed: bool)
      requires Valid()
      ensures |decisions| == |moduleOrder|
      ensures forall k :: 0 <= k < |moduleOrder| ==> decisions[k] == Preflight(modules[moduleOrder[k]].manifest, peers)
      ensures failed <==> exists k :: 0 <= k < |decisions| && !decisions[k].allowed
    {
      hide ServiceAgrees, Agreement, Preflight;
      decisions, failed := [], false;
      for i := 0 to |moduleOrder|
        invariant |decisions| == i && forall k :: 0 <= k < i ==>
                    decisions[k] == Preflight(modules[moduleOrder[k]].manifest, peers)
        invariant failed <==> exists k :: 0 <= k < i && !decisions[k].allowed
      {
        var decision := Authorize(modules[moduleOrder[i]].manifest, peers);
        decisions := decisions + [decision];
        failed := failed || !decision.allowed;
      }
    }

    /** `healthy` are the modules whose own start succeeds. A batch that may not be partial, on a host with nothing
        running, is all or nothing. */
    method StartAllowedModules(partial: bool, peers: seq<ModulePeerVersion>, healthy: set<string>)
      returns (reports: seq<ModuleStartReport>)
      requires Valid()
      modifies this`modules, this`calls, ingress, ingress.network
      ensures Valid() && RouterKept()
      ensures BatchOutcome(old(PlanOf(peers, healthy)), partial, old(View()), View(), reports)
      ensures PlainOutcome(moduleOrder, old(Hindered(peers)), old(Sound(healthy)), partial, old(View()), View(),
                           reports)
      ensures !partial && NoneRunning(old(modules)) ==>
                AllOrNone(old(PlanOf(peers, healthy)), old(View()), View(), reports)
    {
      hide *;
      ghost var plan, start, hindered, sound := PlanOf(peers, healthy), View(), Hindered(peers), Sound(healthy);
      PlanFits(peers, healthy);
      PlanIsPlain(peers, healthy);
      reports := PreflightAndStart(partial, peers, healthy);
      OutcomeIsPlain(plan, hindered, sound, partial, start, View(), reports);
      if !partial && NoneRunning(start.modules) {
        AllOrNothing(plan, start, View(), reports);
      }
    }

    /** Something stands in the way of the module: a required module that is not hosted, a required channel that is not
        ready, an expected peer without a reported version in the range first declared for it, or a policy that
        leaves out a feature bit. */
    ghost predicate StandsInTheWay(manifest: ModuleManifest, peers: seq<ModulePeerVersion>)
      reads this`modules, channels
    {
      || LacksSomething(manifest)
      || (peers != [] && exists e :: e in manifest.compatiblePeers && NoPeerFor(manifest, e.peerModuleId, peers))
      || (policy.Some? && !(HasEveryBit(policy.value.licensed, manifest.feature)
                            && HasEveryBit(policy.value.features, manifest.feature)))
    }

    ghost predicate LacksSomething(manifest: ModuleManifest)
      reads this`modules, channels
    {
      || (exists d :: d in manifest.requiredModules && d !in modules)
      || (channels != null && exists b :: b in manifest.channels && b.required && ChannelDown(b.key))
    }

    ghost predicate ChannelDown(key: ChannelKey)
      requires channels != null
      reads channels
    {
      key !in channels.entries || channels.entries[key].snapshot.state != Ready || !channels.entries[key].snapshot.ready
    }

    ghost function Hindered(peers: seq<ModulePeerVersion>): set<string>
      reads this`modules, channels
    {
      set id | id in modules && StandsInTheWay(modules[id].manifest, peers)
    }

    /** The modules whose start succeeds once they are asked: their own start does, and there is a network if they
        consume packets. */
    ghost function Sound(healthy: set<string>): set<string>
      reads this`modules, ingress
    {
      set id | id in modules && id in healthy && (HasConsumedPackets(modules[id].manifest) ==> ingress.network != null)
    }

    /** The preflight allows a module exactly when nothing stands in its way, and otherwise says what does: something
        missing first, then a peer's version, then the policy. */
    lemma PreflightExactly(manifest: ModuleManifest, peers: seq<ModulePeerVersion>)
      ensures var d := Preflight(manifest, peers);
              && (d.allowed <==> !StandsInTheWay(manifest, peers))
              && (d.allowed <==> d.reason == NoReason)
              && (LacksSomething(manifest) <==> d.reason == MissingDependency)
              && (d.reason == ModuleVersionMismatch ==>
                    exists e :: e in manifest.compatiblePeers && NoPeerFor(manifest, e.peerModuleId, peers))
              && (d.reason == FeatureNotLicensed ==>
                  policy.Some? && !HasEveryBit(policy.value.licensed, manifest.feature))
              && (d.reason == FeatureDisabledByPolicy ==>
                    policy.Some? && HasEveryBit(policy.value.licensed, manifest.feature)
                    && !HasEveryBit(policy.value.features, manifest.feature))
    {
      hide PeersBlock, NoPeerFor, HasEveryBit, ChannelMissing, ChannelDown, StaticPolicy.AuthorizeModule;
      MissingExactly(manifest.requiredModules, modules.Keys);
      PeersBlockExactly(manifest, peers);
      if policy.Some? {
        PolicyExactly(policy.value, manifest);
      }
      assert ChannelMissing(manifest)
        <==> channels != null && exists b :: b in manifest.channels && b.required && ChannelDown(b.key) by {
        ChannelsExactly(manifest);
      }
    }

    lemma ChannelsExactly(manifest: ModuleManifest)
      ensures ChannelMissing(manifest)
        <==> channels != null && exists b :: b in manifest.channels && b.required && ChannelDown(b.key)
    {
      if ChannelMissing(manifest) {
        var i :| 0 <= i < |manifest.channels| && manifest.channels[i].required
          && !channels.IsReady(manifest.channels[i].key);
        assert manifest.channels[i] in manifest.channels;
      }
    }

    lemma PlanIsPlain(peers: seq<ModulePeerVersion>, healthy: set<string>)
      requires Valid()
      ensures var plan := PlanOf(peers, healthy);
              && plan.order == moduleOrder
              && (forall i :: 0 <= i < |plan.order| ==>
                    (plan.decisions[i].allowed <==> plan.order[i] !in Hindered(peers)))
              && (forall i :: 0 <= i < |plan.order| ==>
                    (plan.Succeeds(i) <==> plan.order[i] !in Hindered(peers) && plan.order[i] in Sound(healthy)))
    {
      hide Preflight, StandsInTheWay, HasConsumedPackets, Agreement, ServiceAgrees;
      var plan := PlanOf(peers, healthy);
      forall i | 0 <= i < |plan.order| ensures plan.decisions[i].allowed <==> plan.order[i] !in Hindered(peers) {
        PreflightExactly(plan.manifests[i], peers);
      }
    }

    lemma PlanFits(peers: seq<ModulePeerVersion>, healthy: set<string>)
      requires Valid()
      ensures var plan, start := PlanOf(peers, healthy), View();
              && plan.order == moduleOrder && plan.healthy == healthy && start.modules == modules
              && Hosted(start.modules, plan.order) && plan.manifests == ManifestsOf(start.modules, plan.order)
              && OnlyConsumersServed(start)
    {
    }

    method PreflightAndStart(partial: bool, peers: seq<ModulePeerVersion>, healthy: set<string>)
      returns (reports: seq<ModuleStartReport>)
      requires Valid()
      modifies this`modules, this`calls, ingress, ingress.network
      ensures Valid() && RouterKept()
      ensures BatchOutcome(old(PlanOf(peers, healthy)), partial, old(View()), View(), reports)
    {
      hide Hosted, ServiceAgrees, Agreement, Others, Preflight, Attempted, RolledBack, AllReported;
      hide StartPlan.Consumes, StartPlan.StateAfter, StartPlan.CallsOf;
      ghost var plan := PlanOf(peers, healthy);
      OrderIsHosted(modules, moduleOrder);
      var decisions, preflightFailed := PreflightAll(peers);
      assert decisions == plan.decisions;
      if preflightFailed && !partial {
        ghost var k :| 0 <= k < |plan.order| && !plan.decisions[k].allowed;
        assert !plan.Succeeds(k);
        reports := RefuseFrom([], decisions);
      } else {
        reports := StartBatch(plan, partial, decisions, healthy);
      }
    }

    /** The start loop proper, for a batch that passed its preflight or may start in part. */
    method StartBatch(ghost plan: StartPlan, partial: bool, decisions: seq<Decision>, healthy: set<string>)
      returns (reports: seq<ModuleStartReport>)
      requires Valid() && plan.Valid() && plan.order == moduleOrder && plan.decisions == decisions
               && plan.healthy == healthy
      requires plan.networked <==> ingress.network != null
      requires forall i :: 0 <= i < |moduleOrder| ==>
                 moduleOrder[i] in modules && plan.manifests[i] == modules[moduleOrder[i]].manifest
      requires partial || plan.Preflighted()
      modifies this`modules, this`calls, ingress, ingress.network
      ensures Valid() && RouterKept()
      ensures BatchOutcome(plan, partial, old(View()), View(), reports)
    {
      hide Hosted, ServiceAgrees, Agreement, Others, Attempted, RolledBack, AllRefused;
      hide StartPlan.Succeeds, StartPlan.Consumes, StartPlan.StateAfter, StartPlan.CallsOf, StartPlan.ReportOf;
      ghost var start := View();
      var started := [];
      reports := [];
      NothingAttempted(plan, start);
      for i := 0 to |moduleOrder|
        invariant Valid() && RouterKept() && Attempted(plan, start, View(), i)
        invariant |reports| == i && forall k :: 0 <= k < i ==> reports[k] == plan.ReportOf(k)
        invariant !partial ==> plan.SucceedsBelow(i) && started == moduleOrder[..i]
      {
        ghost var before := View();
        StillHosted(plan, start, before, i);
        var report := StartOne(plan, i, decisions[i], healthy);
        AttemptOnce(plan, start, before, View(), i);
        plan.ReportTells(i);
        if report.started {
          started := started + [moduleOrder[i]];
        } else if !partial {
          reports := RollBack(plan, start, i, started, reports, report, decisions);
          return;
        }
        reports := reports + [report];
      }
    }

    /** Module `i` failed: undo the batch and refuse every report. */
    method RollBack(ghost plan: StartPlan, ghost start: HostView, ghost i: nat, started: seq<string>,
                    earlier: seq<ModuleStartReport>, report: ModuleStartReport, decisions: seq<Decision>)
      returns (reports: seq<ModuleStartReport>)
      requires Valid() && plan.Valid() && i < |plan.order| && plan.order == moduleOrder && plan.decisions == decisions
      requires Attempted(plan, start, View(), i + 1) && plan.Preflighted() && plan.SucceedsBelow(i) && !plan.Succeeds(i)
      requires started == moduleOrder[..i] && report == plan.ReportOf(i)
      requires |earlier| == i && forall k :: 0 <= k < i ==> earlier[k] == plan.ReportOf(k)
      modifies this`modules, this`calls, ingress, ingress.network
      ensures Valid() && RouterKept()
      ensures AllRefused(plan, reports) && RolledBack(plan, start, View(), i)
    {
      hide Hosted, ServiceAgrees, Agreement, Others, Attempted, StoppedInReverse;
      ghost var middle := View();
      OrderIsHosted(modules, moduleOrder);
      StopInReverse(started, true);
      reports := earlier;
      for k := 0 to |earlier|
        modifies {}
        invariant |reports| == |earlier|
        invariant forall j :: 0 <= j < k ==> reports[j] == Refused(moduleOrder[j], decisions[j])
        invariant forall j :: k <= j < |earlier| ==> reports[j] == plan.ReportOf(j)
      {
        if reports[k].started {
          reports := reports[k := reports[k].(started := false, decision := Decision(false, RuntimeHealthBlocked))];
        }
      }
      reports := reports + [report];
      ghost var reached := reports;
      reports := RefuseFrom(reports, decisions);
      assert forall k :: 0 <= k < |reached| ==> reports[k] == reports[..|reached|][k];
    }

    /** Report the modules a failing batch never reached. */
    method RefuseFrom(reached: seq<ModuleStartReport>, decisions: seq<Decision>)
      returns (reports: seq<ModuleStartReport>)
      requires |reached| <= |moduleOrder| == |decisions|
      ensures |reports| == |moduleOrder| && reports[..|reached|] == reached
      ensures forall k :: |reached| <= k < |moduleOrder| ==> reports[k] == Refused(moduleOrder[k], decisions[k])
    {
      reports := reached;
      for i := |reached| to |moduleOrder|
        invariant |reports| == i && reports[..|reached|] == reached
        invariant forall k :: |reached| <= k < i ==> reports[k] == Refused(moduleOrder[k], decisions[k])
      {
        reports := reports + [Refused(moduleOrder[i], decisions[i])];
      }
    }

    method StopAll(force: bool)
      requires Valid()
      modifies this`modules, this`calls, ingress, ingress.network
      ensures Valid() && RouterKept()
      ensures StoppedInReverse(moduleOrder, force, old(View()), View())
      ensures ingress.tokensByModule == map[]
      ensures forall id :: id in modules ==> modules[id].state == Stopped
    {
      StopInReverse(moduleOrder, force);
      assert forall id :: id in ingress.tokensByModule ==> id in moduleOrder;
      assert ingress.tokensByModule.Keys == {};
    }

    /** After a reconnect: subscribe again every running consumer that uses an affected channel. */
    method ReplayRunningModuleIngress(affected: seq<ChannelKey>) returns (reports: seq<IngressReplayReport>)
      requires Valid()
      modifies ingress, ingress.network
      ensures Valid() && RouterKept() && ingress.tokensByModule.Keys == old(ingress.tokensByModule.Keys)
      ensures reports == Replays(modules, moduleOrder, affected)
      ensures ingress.network != null ==> forall id :: id in modules && id in ingress.tokensByModule ==>
                if IsReplayed(modules[id], affected) then
                  AllFrom(ingress.tokensByModule[id], old(ingress.network.nextToken))
                else ingress.tokensByModule[id] == old(ingress.tokensByModule)[id]
    {
      hide Hosted, ServiceAgrees, Agreement, Others, HasConsumedPackets, Routes, AffectedByReconnect;
      OrderIsHosted(modules, moduleOrder);
      reports := [];
      for i := 0 to |moduleOrder|
        invariant Valid() && RouterKept() && ingress.tokensByModule.Keys == old(ingress.tokensByModule.Keys)
        invariant reports == Replays(modules, moduleOrder[..i], affected)
        invariant ingress.network != null ==> ingress.network.nextToken >= old(ingress.network.nextToken)
        invariant ingress.network != null ==> forall id :: id in modules && id in ingress.tokensByModule ==>
                    if id in moduleOrder[..i] && IsReplayed(modules[id], affected)
                    then AllFrom(ingress.tokensByModule[id], old(ingress.network.nextToken))
                    else ingress.tokensByModule[id] == old(ingress.tokensByModule)[id]
      {
        NotYetReplayed(modules, moduleOrder, i);
        assert moduleOrder[..i + 1][..i] == moduleOrder[..i];
        var id := moduleOrder[i];
        var manifest := modules[id].manifest;
        if !IsReplayed(modules[id], affected) {
          continue;
        }
        ListedByOwnId(modules, moduleOrder, id);
        RunningConsumerIsServed(modules, ingress.tokensByModule, ingress.manifests, id);
        ghost var tokensBefore, manifestsBefore := ingress.tokensByModule, ingress.manifests;
        var tokens := ingress.RegisterManifest(manifest, true);
        ConsumersHaveRoutes(manifest);
        ServedAgrees(modules, tokensBefore, manifestsBefore, id, tokens);
        assert WithState(modules, id, Running) == modules;
        reports := reports + [IngressReplayReport(id, tokens != [], |tokens|)];
      }
      assert moduleOrder[..|moduleOrder|] == moduleOrder;
      EveryModuleIsListed(modules, moduleOrder);
    }
  }

  lemma EveryModuleIsListed(modules: map<string, HostedModule>, order: seq<string>)
    requires Hosted(modules, order)
    ensures forall id :: id in modules ==> id in order
  {
  }

  lemma NotYetReplayed(modules: map<string, HostedModule>, order: seq<string>, i: nat)
    requires Hosted(modules, order) && i < |order|
    ensures order[i] !in order[..i] && forall id :: id in order[..i + 1] <==> id in order[..i] || id == order[i]
  {
    assert order[..i + 1] == order[..i] + [order[i]];
  }

  predicate IsReplayed(m: HostedModule, affected: seq<ChannelKey>) {
    m.state == Running && HasConsumedPackets(m.manifest) && AffectedByReconnect(m.manifest, affected)
  }

  predicate AffectedByReconnect(manifest: ModuleManifest, affected: seq<ChannelKey>) {
    affected == [] || exists i :: 0 <= i < |manifest.channels| && manifest.channels[i].key in affected
  }

  /** One successful report, with one token per declared route, for each running consumer affected. */
  function Replays(modules: map<string, HostedModule>, order: seq<string>,
                   affected: seq<ChannelKey>): seq<IngressReplayReport>
    requires forall i :: 0 <= i < |order| ==> order[i] in modules
  {
    if order == [] then [] else
      var id := order[|order| - 1];
      Replays(modules, order[..|order| - 1], affected)
      + if IsReplayed(modules[id], affected)
        then [IngressReplayReport(id, true, |Routes(modules[id].manifest.channels)|)] else []
  }

  lemma RunningConsumerIsServed(modules: map<string, HostedModule>, tokensByModule: map<string, seq<nat>>,
                                manifests: map<string, ModuleManifest>, id: string)
    requires ServiceAgrees(modules, tokensByModule, manifests) && id in modules
    requires modules[id].state == Running && HasConsumedPackets(modules[id].manifest)
    ensures id in tokensByModule && id in manifests && manifests[id] == modules[id].manifest
  {
  }

  /** A packet reaches a running module exactly as often as its manifest declares it. */
  lemma RunningModuleGetsDeclaredPackets(host: ModuleHost, p: PacketEnvelope, id: string)
    requires host.Valid() && host.ingress.network != null
    requires id in host.modules && host.modules[id].state == Running
    ensures CountOf(Handlers(host.ingress.network.subscriptions, p, host.ingress.network.nextToken), id)
         == Declared(host.modules[id].manifest.channels, p)
  {
    hide Agreement, Handlers, CountOf;
    var manifest := host.modules[id].manifest;
    NothingDeclared(manifest, p);
    DeliversAsDeclared(host.ingress.network.subscriptions, host.ingress.network.nextToken, host.ingress.tokensByModule,
                       host.ingress.manifests, p, id);
    ConsumersHaveRoutes(manifest);
  }

  // ----- all or nothing

  function StartsOf(ids: seq<string>): seq<Call> {
    seq(|ids|, i requires 0 <= i < |ids| => StartCall(ids[i], true))
  }

  lemma {:induction false} SuccessfulCalls(plan: StartPlan, n: nat)
    requires plan.Valid() && n <= |plan.order| && plan.SucceedsBelow(n)
    ensures plan.CallsBelow(n) == StartsOf(plan.order[..n])
  {
    if n > 0 {
      SuccessfulCalls(plan, n - 1);
      assert plan.Succeeds(n - 1);
    }
  }

  lemma {:induction false} StopsAreReversed(ids: seq<string>, force: bool)
    ensures |StopsOf(ids, force)| == |ids|
    ensures forall i :: 0 <= i < |ids| ==> StopsOf(ids, force)[i] == StopCall(ids[|ids| - 1 - i], force)
  {
    if ids != [] {
      StopsAreReversed(ids[1..], force);
    }
  }

  lemma {:induction false} ServedWhenAllSucceed(plan: StartPlan, n: nat, id: string)
    requires plan.Valid() && n <= |plan.order| && plan.SucceedsBelow(n)
    ensures id in plan.ServedBelow(n) <==> exists i :: 0 <= i < n && plan.order[i] == id && plan.Consumes(i)
  {
    hide HasConsumedPackets;
    if n > 0 {
      ServedWhenAllSucceed(plan, n - 1, id);
      assert plan.Succeeds(n - 1);
    }
  }

  /** Everything started, runs, and serves what it consumes. */
  ghost predicate Committed(plan: StartPlan, before: HostView, after: HostView, reports: seq<ModuleStartReport>) {
    && (forall id :: id in after.modules ==> after.modules[id].state == Running)
    && (forall id :: id in after.served <==> id in after.modules && HasConsumedPackets(after.modules[id].manifest))
    && after.calls == before.calls + StartsOf(plan.order)
    && (forall i :: 0 <= i < |reports| ==> reports[i].started && reports[i].decision.allowed)
  }

  /** Nothing runs; the modules that had started were each stopped once, in reverse order, and only they were
      unregistered. */
  ghost predicate Withdrawn(plan: StartPlan, before: HostView, after: HostView, reports: seq<ModuleStartReport>)
    requires plan.Valid() && !plan.SucceedsBelow(|plan.order|)
  {
    var k := Reached(plan);
    && (forall id :: id in after.modules ==> after.modules[id].state != Running)
    && after.served == before.served - (set id | id in plan.order[..k])
    && (forall i :: 0 <= i < |reports| ==> !reports[i].started && !reports[i].decision.allowed)
    && after.calls == before.calls + StartsOf(plan.order[..k])
                      + (if plan.Preflighted() then plan.CallsOf(k) else []) + StopsOf(plan.order[..k], true)
  }

  ghost predicate NoneRunning(modules: map<string, HostedModule>) {
    forall id :: id in modules ==> modules[id].state != Running
  }

  ghost predicate OnlyConsumersServed(view: HostView) {
    forall id :: id in view.served ==> id in view.modules && HasConsumedPackets(view.modules[id].manifest)
  }

  /** Everything, or nothing. After nothing, no ingress is left exactly when all that was registered before
      belonged to modules the batch had started; in particular when nothing was. */
  ghost predicate AllOrNone(plan: StartPlan, before: HostView, after: HostView, reports: seq<ModuleStartReport>)
    requires plan.Valid()
  {
    && |reports| == |plan.order|
    && (forall i :: 0 <= i < |reports| ==> reports[i].moduleId == plan.order[i])
    && if plan.SucceedsBelow(|plan.order|) then Committed(plan, before, after, reports)
       else Withdrawn(plan, before, after, reports)
            && (after.served == {} <==> forall id :: id in before.served ==> id in plan.order[..Reached(plan)])
  }

  lemma AllOrNothing(plan: StartPlan, before: HostView, after: HostView, reports: seq<ModuleStartReport>)
    requires plan.Valid() && BatchOutcome(plan, false, before, after, reports)
    requires Hosted(before.modules, plan.order) && plan.manifests == ManifestsOf(before.modules, plan.order)
    requires NoneRunning(before.modules) && OnlyConsumersServed(before)
    ensures AllOrNone(plan, before, after, reports)
  {
    hide HasConsumedPackets, Hosted, StartPlan.StateAfter, StartPlan.CallsOf, Attempted, StoppedInReverse;
    var n := |plan.order|;
    if plan.SucceedsBelow(n) {
      AllSucceed(plan, before, after, reports);
    } else {
      if plan.Preflighted() {
        var k :| 0 <= k < n && RolledBack(plan, before, after, k);
        assert k == Reached(plan);
        RolledBackUndoesStarts(plan, before, after, k);
      }
      NoneLeft(before.served, plan.order[..Reached(plan)]);
    }
  }

  lemma NoneLeft(served: set<string>, ids: seq<string>)
    ensures served - (set id | id in ids) == {} <==> forall id :: id in served ==> id in ids
  {
    assert forall id :: id in served - (set id | id in ids) <==> id in served && id !in ids;
  }

  // ----- what stands in the way, in plain terms

  /** The peer reports a version within the range that is declared first for its id. */
  ghost predicate AdmitsPeer(manifest: ModuleManifest, peer: ModulePeerVersion) {
    && manifest.moduleId != "" && peer.moduleId != ""
    && exists i: nat :: DeclaredFirst(manifest.compatiblePeers, peer.moduleId, i)
         && Rank(manifest.compatiblePeers[i].least) <= Rank(peer.version) <= Rank(manifest.compatiblePeers[i].most)
  }

  predicate DeclaredFirst(declared: seq<PeerCompatibility>, id: string, i: nat) {
    && i < |declared| && declared[i].peerModuleId == id
    && forall j :: 0 <= j < i ==> declared[j].peerModuleId != id
  }

  lemma {:induction false} DeclaredExactly(declared: seq<PeerCompatibility>, peer: ModulePeerVersion)
    ensures DeclaredCompatible(declared, peer) <==>
              exists i: nat :: DeclaredFirst(declared, peer.moduleId, i)
                && Rank(declared[i].least) <= Rank(peer.version) <= Rank(declared[i].most)
  {
    hide Rank;
    if declared != [] {
      var rest := declared[1..];
      if declared[0].peerModuleId == peer.moduleId {
        AtMostByRank(declared[0].least, peer.version);
        AtMostByRank(peer.version, declared[0].most);
        assert DeclaredFirst(declared, peer.moduleId, 0);
      } else {
        DeclaredExactly(rest, peer);
        if i: nat :| DeclaredFirst(rest, peer.moduleId, i)
                     && Rank(rest[i].least) <= Rank(peer.version) <= Rank(rest[i].most) {
          assert forall j :: 0 < j < i + 1 ==> declared[j] == rest[j - 1];
          assert DeclaredFirst(declared, peer.moduleId, i + 1) && declared[i + 1] == rest[i];
        }
        if i: nat :| DeclaredFirst(declared, peer.moduleId, i)
                     && Rank(declared[i].least) <= Rank(peer.version) <= Rank(declared[i].most) {
          assert forall j :: 0 <= j < i - 1 ==> rest[j] == declared[j + 1];
          assert DeclaredFirst(rest, peer.moduleId, i - 1) && rest[i - 1] == declared[i];
        }
      }
    }
  }

  lemma AdmitsExactly(manifest: ModuleManifest, peer: ModulePeerVersion)
    ensures CheckModuleCompatibility(manifest, peer) <==> AdmitsPeer(manifest, peer)
  {
    hide DeclaredCompatible;
    DeclaredExactly(manifest.compatiblePeers, peer);
  }

  lemma PeersBlockExactly(manifest: ModuleManifest, peers: seq<ModulePeerVersion>)
    ensures PeersBlock(manifest, peers)
       <==> peers != [] && exists e :: e in manifest.compatiblePeers && NoPeerFor(manifest, e.peerModuleId, peers)
  {
    hide Satisfied, NoPeerFor;
    forall id ensures Satisfied(manifest, id, peers) <==> !NoPeerFor(manifest, id, peers) {
      SatisfiedExactly(manifest, id, peers);
    }
    if e :| e in manifest.compatiblePeers && NoPeerFor(manifest, e.peerModuleId, peers) {
      var i :| 0 <= i < |manifest.compatiblePeers| && manifest.compatiblePeers[i] == e;
      assert !Satisfied(manifest, manifest.compatiblePeers[i].peerModuleId, peers);
    }
  }

  /** No version reported for the id is within the declared range. */
  ghost predicate NoPeerFor(manifest: ModuleManifest, id: string, peers: seq<ModulePeerVersion>) {
    forall peer :: peer in peers && peer.moduleId == id ==> !AdmitsPeer(manifest, peer)
  }

  lemma SatisfiedExactly(manifest: ModuleManifest, id: string, peers: seq<ModulePeerVersion>)
    ensures Satisfied(manifest, id, peers) <==> !NoPeerFor(manifest, id, peers)
  {
    hide CheckModuleCompatibility, AdmitsPeer;
    forall j | 0 <= j < |peers|
      ensures Accepts(manifest, id, peers[j]) <==> peers[j].moduleId == id && AdmitsPeer(manifest, peers[j]) {
      AdmitsExactly(manifest, peers[j]);
    }
    if Satisfied(manifest, id, peers) {
      var j :| 0 <= j < |peers| && Accepts(manifest, id, peers[j]);
      assert peers[j] in peers;
    }
    if !NoPeerFor(manifest, id, peers) {
      var peer :| peer in peers && peer.moduleId == id && AdmitsPeer(manifest, peer);
      var j :| 0 <= j < |peers| && peers[j] == peer;
      assert Accepts(manifest, id, peers[j]);
    }
  }

  lemma MissingExactly(required: seq<string>, hosted: set<string>)
    ensures (exists i :: 0 <= i < |required| && required[i] !in hosted) <==> exists d :: d in required && d !in hosted
  {
    if d :| d in required && d !in hosted {
      var i :| 0 <= i < |required| && required[i] == d;
    }
  }

  /** The policy allows a module exactly when each feature bit of its manifest is licensed and enabled. */
  lemma PolicyExactly(policy: StaticPolicy, manifest: ModuleManifest)
    ensures var d := policy.AuthorizeModule(manifest);
            && (d.allowed <==>
                  HasEveryBit(policy.licensed, manifest.feature) && HasEveryBit(policy.features, manifest.feature))
            && (d.allowed <==> d.reason == NoReason)
            && d.reason in {NoReason, FeatureNotLicensed, FeatureDisabledByPolicy}
            && (d.reason == FeatureNotLicensed <==> !HasEveryBit(policy.licensed, manifest.feature))
  {
    hide And, HasEveryBit;
    CoversExactly(policy.licensed, manifest.feature);
    CoversExactly(policy.features, manifest.feature);
    AndCommutes(policy.licensed, manifest.feature);
    AndCommutes(policy.features, manifest.feature);
    AndOfItself(manifest.feature);
  }

  lemma CoversExactly(bits: uint64, feature: uint64)
    ensures And(bits, feature) == feature <==> HasEveryBit(bits, feature)
  {
    hide And, DigitOf;
    if And(bits, feature) == feature {
      forall place: nat | DigitOf(feature, place) ensures DigitOf(bits, place) {
        AndIsBitwise(bits, feature, place);
      }
    }
    if HasEveryBit(bits, feature) {
      forall place: nat ensures DigitOf(And(bits, feature), place) == DigitOf(feature, place) {
        AndIsBitwise(bits, feature, place);
      }
      SameDigitsSameNumber(And(bits, feature), feature);
    }
  }

  /** Every binary digit set in `feature` is set in `bits`. */
  ghost predicate HasEveryBit(bits: uint64, feature: uint64) {
    forall place: nat :: DigitOf(feature, place) ==> DigitOf(bits, place)
  }

  // ----- the outcome, in plain terms

  /** The modules asked to start, in order. */
  function Asked(calls: seq<Call>): seq<string> {
    if calls == [] then []
    else Asked(calls[..|calls| - 1])
         + if calls[|calls| - 1].StartCall? then [calls[|calls| - 1].moduleId] else []
  }

  function Except(order: seq<string>, out: set<string>): seq<string> {
    if order == [] then []
    else Except(order[..|order| - 1], out) + if order[|order| - 1] in out then [] else [order[|order| - 1]]
  }

  /** `m` modules were asked: all, or all up to the first that is not sound. */
  ghost predicate UpToFirstFailure(order: seq<string>, sound: set<string>, m: nat) {
    && m <= |order| && (forall i :: 0 <= i < m - 1 ==> order[i] in sound)
    && (m < |order| ==> m > 0 && order[m - 1] !in sound)
  }

  /** A module that names no role, or no platform, suits every one; otherwise those it names. */
  lemma SuitsExactly(manifest: ModuleManifest, k: nat, platform: string)
    requires k < 5
    ensures var role: uint32 := if k == 0 then 1 else if k == 1 then 2 else if k == 2 then 4 else if k == 3 then 8
            else 16;
            SupportsRole(manifest, role) <==> manifest.roleFlags == 0 || DigitOf(manifest.roleFlags, k)
    ensures SupportsPlatform(manifest, platform)
       <==> manifest.supportedPlatforms == [] || multiset(manifest.supportedPlatforms)[platform] > 0
  {
    var f0 := manifest.roleFlags;
    var f1 := f0 / 2;
    var f2 := f1 / 2;
    var f3 := f2 / 2;
    var f4 := f3 / 2;
    assert f2 == f0 / 4 && f3 == f0 / 8 && f4 == f0 / 16;
    assert DigitOf(f0, 1) == DigitOf(f1, 0);
    assert DigitOf(f0, 2) == DigitOf(f1, 1) == DigitOf(f2, 0);
    assert DigitOf(f0, 3) == DigitOf(f1, 2) == DigitOf(f2, 1) == DigitOf(f3, 0);
    assert DigitOf(f0, 4) == DigitOf(f1, 3) == DigitOf(f2, 2) == DigitOf(f3, 1) == DigitOf(f4, 0);
  }

  /** A reconnect replays the running modules that consume packets and use an affected channel; all channels count as
      affected when none is named. */
  lemma ReplayedExactly(m: HostedModule, affected: seq<ChannelKey>)
    ensures IsReplayed(m, affected) <==>
              && m.state == Running && (exists b :: b in m.manifest.channels && b.consumes != [])
              && (affected == [] || exists b :: b in m.manifest.channels && b.key in affected)
  {
    if b :| b in m.manifest.channels && b.consumes != [] {
      var i :| 0 <= i < |m.manifest.channels| && m.manifest.channels[i] == b;
    }
    if b :| b in m.manifest.channels && b.key in affected {
      var i :| 0 <= i < |m.manifest.channels| && m.manifest.channels[i] == b;
    }
  }

  /** What a batch does, told from the modules that something stands in the way of and those whose start succeeds. */
  ghost predicate PlainOutcome(order: seq<string>, hindered: set<string>, sound: set<string>, partial: bool,
                               before: HostView, after: HostView, reports: seq<ModuleStartReport>) {
    && |reports| == |order| && (forall i :: 0 <= i < |order| ==> reports[i].moduleId == order[i])
    && (forall i :: 0 <= i < |order| && order[i] in hindered ==> !reports[i].started && !reports[i].decision.allowed)
    && |before.calls| <= |after.calls| && after.calls[..|before.calls|] == before.calls
    && var asked := Asked(after.calls[|before.calls|..]);
       if partial then
         && asked == Except(order, hindered)
         && (forall i :: 0 <= i < |order| ==> (reports[i].started <==> order[i] !in hindered && order[i] in sound))
       else if exists i :: 0 <= i < |order| && order[i] in hindered then after == before
       else exists m: nat :: UpToFirstFailure(order, sound, m) && asked == order[..m]
  }

  lemma {:induction false} AskedConcat(a: seq<Call>, b: seq<Call>)
    ensures Asked(a + b) == Asked(a) + Asked(b)
  {
    if b == [] {
      assert a + b == a;
    } else {
      assert (a + b)[..|a + b| - 1] == a + b[..|b| - 1];
      AskedConcat(a, b[..|b| - 1]);
    }
  }

  lemma {:induction false} StopsAskNobody(ids: seq<string>, force: bool)
    ensures Asked(StopsOf(ids, force)) == []
  {
    if ids != [] {
      StopsAskNobody(ids[1..], force);
      AskedConcat(StopsOf(ids[1..], force), [StopCall(ids[0], force)]);
      assert [StopCall(ids[0], force)][..0] == [];
    }
  }

  lemma CallsOfAsk(plan: StartPlan, i: nat)
    requires plan.Valid() && i < |plan.order|
    ensures Asked(plan.CallsOf(i)) == if plan.decisions[i].allowed then [plan.order[i]] else []
  {
    hide HasConsumedPackets;
    var calls := plan.CallsOf(i);
    if calls != [] {
      assert calls == [calls[0]] + calls[1..];
      AskedConcat([calls[0]], calls[1..]);
      assert [calls[0]][..0] == [] && (|calls| > 1 ==> calls[1..][..0] == []);
    }
  }

  lemma {:induction false} CallsBelowAsk(plan: StartPlan, n: nat, hindered: set<string>)
    requires plan.Valid() && n <= |plan.order|
    requires forall i :: 0 <= i < |plan.order| ==> (plan.decisions[i].allowed <==> plan.order[i] !in hindered)
    ensures Asked(plan.CallsBelow(n)) == Except(plan.order[..n], hindered)
  {
    if n > 0 {
      hide StartPlan.CallsOf, StartPlan.CallsBelow, Asked, Except;
      CallsBelowAsk(plan, n - 1, hindered);
      OneMoreAsked(plan, n - 1);
      OneMoreExcept(plan.order[..n - 1], plan.order[n - 1], hindered);
      assert plan.order[..n] == plan.order[..n - 1] + [plan.order[n - 1]];
    }
  }

  lemma OneMoreAsked(plan: StartPlan, i: nat)
    requires plan.Valid() && i < |plan.order|
    ensures Asked(plan.CallsBelow(i + 1))
         == Asked(plan.CallsBelow(i)) + if plan.decisions[i].allowed then [plan.order[i]] else []
  {
    hide StartPlan.CallsOf, Asked;
    AskedConcat(plan.CallsBelow(i), plan.CallsOf(i));
    CallsOfAsk(plan, i);
  }

  lemma OneMoreExcept(order: seq<string>, id: string, out: set<string>)
    ensures Except(order + [id], out) == Except(order, out) + if id in out then [] else [id]
  {
    assert (order + [id])[..|order|] == order;
  }

  lemma {:induction false} NobodyExcepted(order: seq<string>, out: set<string>)
    requires forall i :: 0 <= i < |order| ==> order[i] !in out
    ensures Except(order, out) == order
  {
    if order != [] {
      NobodyExcepted(order[..|order| - 1], out);
    }
  }

  lemma OutcomeIsPlain(plan: StartPlan, hindered: set<string>, sound: set<string>, partial: bool,
                       before: HostView, after: HostView, reports: seq<ModuleStartReport>)
    requires plan.Valid() && BatchOutcome(plan, partial, before, after, reports)
    requires forall i :: 0 <= i < |plan.order| ==> (plan.decisions[i].allowed <==> plan.order[i] !in hindered)
    requires forall i :: 0 <= i < |plan.order| ==>
               (plan.Succeeds(i) <==> plan.order[i] !in hindered && plan.order[i] in sound)
    ensures PlainOutcome(plan.order, hindered, sound, partial, before, after, reports)
  {
    hide StartPlan.Succeeds, StartPlan.CallsBelow, StartPlan.CallsOf, StatesAttempted, StoppedInReverse;
    var n := |plan.order|;
    if partial || plan.SucceedsBelow(n) {
      RunIsPlain(plan, hindered, sound, partial, before, after, reports);
    } else if plan.Preflighted() {
      var k :| 0 <= k < n && RolledBack(plan, before, after, k);
      RollbackIsPlain(plan, hindered, sound, before, after, k);
    } else {
      assert after.calls[|before.calls|..] == [];
    }
  }

  lemma RunIsPlain(plan: StartPlan, hindered: set<string>, sound: set<string>, partial: bool,
                   before: HostView, after: HostView, reports: seq<ModuleStartReport>)
    requires plan.Valid() && Attempted(plan, before, after, |plan.order|) && AllReported(plan, reports)
    requires partial || plan.SucceedsBelow(|plan.order|)
    requires forall i :: 0 <= i < |plan.order| ==> (plan.decisions[i].allowed <==> plan.order[i] !in hindered)
    requires forall i :: 0 <= i < |plan.order| ==>
               (plan.Succeeds(i) <==> plan.order[i] !in hindered && plan.order[i] in sound)
    ensures PlainOutcome(plan.order, hindered, sound, partial, before, after, reports)
  {
    hide StartPlan.Succeeds, StartPlan.CallsBelow, StatesAttempted;
    var n := |plan.order|;
    CallsBelowAsk(plan, n, hindered);
    assert plan.order[..n] == plan.order;
    assert after.calls[|before.calls|..] == plan.CallsBelow(n);
    if !partial {
      NobodyExcepted(plan.order, hindered);
      assert UpToFirstFailure(plan.order, sound, n);
    }
  }

  lemma RollbackIsPlain(plan: StartPlan, hindered: set<string>, sound: set<string>, before: HostView, after: HostView,
                        k: nat)
    requires plan.Valid() && k < |plan.order| && RolledBack(plan, before, after, k)
    requires forall i :: 0 <= i < |plan.order| ==> (plan.decisions[i].allowed <==> plan.order[i] !in hindered)
    requires forall i :: 0 <= i < |plan.order| ==>
               (plan.Succeeds(i) <==> plan.order[i] !in hindered && plan.order[i] in sound)
    ensures |before.calls| <= |after.calls| && after.calls[..|before.calls|] == before.calls
    ensures UpToFirstFailure(plan.order, sound, k + 1) && Asked(after.calls[|before.calls|..]) == plan.order[..k + 1]
  {
    hide StartPlan.Succeeds, StartPlan.CallsBelow, StatesAttempted, Asked, Except;
    var middle :| Attempted(plan, before, middle, k + 1) && StoppedInReverse(plan.order[..k], true, middle, after);
    CallsBelowAsk(plan, k + 1, hindered);
    NobodyExcepted(plan.order[..k + 1], hindered);
    StopsAskNobody(plan.order[..k], true);
    AskedConcat(plan.CallsBelow(k + 1), StopsOf(plan.order[..k], true));
    assert after.calls[|before.calls|..] == plan.CallsBelow(k + 1) + StopsOf(plan.order[..k], true);
  }

  // ----- what a caller can know beforehand

  /** The plan, with these modules healthy, fails as a batch that may not be partial. */
  ghost predicate FailedOutcome(plan: StartPlan, healthy: set<string>, before: HostView, after: HostView,
                                reports: seq<ModuleStartReport>) {
    var answered := plan.(healthy := healthy);
    && answered.Valid() && !answered.SucceedsBelow(|answered.order|)
    && BatchOutcome(answered, false, before, after, reports)
  }

  ghost predicate NeverLeavesIngress(plan: StartPlan, before: HostView) {
    forall healthy, after, reports :: FailedOutcome(plan, healthy, before, after, reports) ==> after.served == {}
  }

  /** Once the preflight decisions are known but not yet how the modules will answer: a failing batch is sure to
      leave no ingress exactly when nothing was registered before it. */
  lemma NoIngressLeftExactlyWhenNoneBefore(plan: StartPlan, before: HostView)
    requires plan.Valid() && Hosted(before.modules, plan.order)
             && plan.manifests == ManifestsOf(before.modules, plan.order)
    requires NoneRunning(before.modules) && OnlyConsumersServed(before)
    ensures NeverLeavesIngress(plan, before) <==> before.served == {}
  {
    hide HasConsumedPackets, BatchOutcome, Hosted;
    forall healthy, after, reports | FailedOutcome(plan, healthy, before, after, reports)
      ensures before.served == {} ==> after.served == {}
    {
      AllOrNothing(plan.(healthy := healthy), before, after, reports);
    }
    if before.served != {} {
      SomethingIsHosted(before, plan.order);
      var after, reports := FailingBatch(plan, before);
      assert FailedOutcome(plan, {}, before, after, reports);
    }
  }

  lemma SomethingIsHosted(view: HostView, order: seq<string>)
    requires Hosted(view.modules, order) && OnlyConsumersServed(view) && view.served != {}
    ensures order != []
  {
    hide HasConsumedPackets;
    var id :| id in view.served;
    assert id in order;
  }

  /** A batch in which no module starts leaves everything that was registered. */
  lemma FailingBatch(plan: StartPlan, before: HostView) returns (after: HostView, reports: seq<ModuleStartReport>)
    requires plan.Valid() && Hosted(before.modules, plan.order) && plan.order != []
    ensures FailedOutcome(plan, {}, before, after, reports) && after.served == before.served
  {
    hide HasConsumedPackets;
    var p := plan.(healthy := {});
    reports := seq(|p.order|, i requires 0 <= i < |p.order| => Refused(p.order[i], p.decisions[i]));
    assert !p.Succeeds(0);
    if p.Preflighted() {
      after := FirstStartFails(p, before);
    } else {
      after := before;
    }
  }

  lemma FirstStartFails(plan: StartPlan, before: HostView) returns (after: HostView)
    requires plan.Valid() && plan.Preflighted() && Hosted(before.modules, plan.order) && plan.order != []
             && plan.healthy == {}
    ensures RolledBack(plan, before, after, 0) && after.served == before.served
  {
    hide HasConsumedPackets;
    var id := plan.order[0];
    assert id in plan.order;
    NothingAttempted(plan, before);
    after := HostView(WithState(before.modules, id, StartFailed), before.served, before.calls + [StartCall(id, false)]);
    assert before.served + {} == before.served;
    AttemptOnce(plan, before, before, after, 0);
    assert plan.order[..0] == [] && StoppedInReverse(plan.order[..0], true, after, after);
  }

  // ----- partial starts

  /** Every module that starts has the modules it requires started as well. */
  ghost predicate DependenciesStart(plan: StartPlan)
    requires plan.Valid()
  {
    forall i, d :: 0 <= i < |plan.order| && plan.Succeeds(i) && d in plan.manifests[i].requiredModules ==>
        Starts(plan, d)
  }

  ghost predicate Starts(plan: StartPlan, id: string)
    requires plan.Valid()
  {
    exists j :: 0 <= j < |plan.order| && plan.order[j] == id && plan.Succeeds(j)
  }

  /** No module that may start requires another. */
  ghost predicate StandsAlone(plan: StartPlan, i: nat)
    requires plan.Valid() && i < |plan.order|
  {
    plan.decisions[i].allowed && (plan.Consumes(i) ==> plan.networked) ==>
      forall d :: d in plan.manifests[i].requiredModules ==> d == plan.order[i]
  }

  /** The start of a partial batch only asks that a dependency is mounted. So, whatever the modules answer, started
      modules have their dependencies started exactly when no module that may start requires another. */
  lemma PartialStartHonoursDependenciesExactlyWhen(plan: StartPlan)
    requires plan.Valid()
    ensures (forall healthy :: DependenciesStart(plan.(healthy := healthy)))
            <==> forall i :: 0 <= i < |plan.order| ==> StandsAlone(plan, i)
  {
    hide HasConsumedPackets;
    if i :| 0 <= i < |plan.order| && !StandsAlone(plan, i) {
      OnlyOneStarts(plan, i);
    } else {
      forall healthy ensures DependenciesStart(plan.(healthy := healthy)) {
        var answered := plan.(healthy := healthy);
        forall i, d | 0 <= i < |plan.order| && answered.Succeeds(i) && d in plan.manifests[i].requiredModules
          ensures Starts(answered, d)
        {
          assert StandsAlone(plan, i);
        }
      }
    }
  }

  lemma OnlyOneStarts(plan: StartPlan, i: nat)
    requires plan.Valid() && i < |plan.order| && !StandsAlone(plan, i)
    ensures !DependenciesStart(plan.(healthy := {plan.order[i]}))
  {
    hide HasConsumedPackets;
    var answered := plan.(healthy := {plan.order[i]});
    var d :| d in plan.manifests[i].requiredModules && d != plan.order[i];
    assert answered.Succeeds(i) && !Starts(answered, d);
  }

  /** A run that does so: the module starts, the one it requires does not. */
  method PartialStart(manifest: ModuleManifest, required: ModuleManifest)
    returns (host: ModuleHost, reports: seq<ModuleStartReport>)
    requires manifest.moduleId != "" && manifest.roleFlags == 0 && manifest.supportedPlatforms == []
    requires required.moduleId != "" && required.roleFlags == 0 && required.supportedPlatforms == []
    requires manifest.requiredModules == [required.moduleId] != [manifest.moduleId] && required.requiredModules == []
    ensures fresh(host) && host.Valid()
    ensures manifest.moduleId in host.modules && required.moduleId in host.modules
    ensures host.modules[manifest.moduleId] == HostedModule(manifest, Running)
    ensures host.modules[required.moduleId] == HostedModule(required, StartFailed)
  {
    hide Hosted, ServiceAgrees, Agreement, Others, HasConsumedPackets, AllOrNone;
    host := HostWith(manifest);
    var added := host.AddModule(required, true);
    ghost var before, plan := host.View(), host.PlanOf([], {manifest.moduleId});
    assert plan.order == [manifest.moduleId, required.moduleId];
    assert plan.decisions[0] == host.Preflight(manifest, []) == Decision(true, NoReason);
    assert plan.decisions[1] == host.Preflight(required, []) == Decision(true, NoReason);
    reports := host.StartAllowedModules(true, [], {manifest.moduleId});
    assert host.View().modules[plan.order[0]] == before.modules[plan.order[0]].(state := plan.StateAfter(0, Mounted));
    assert host.View().modules[plan.order[1]] == before.modules[plan.order[1]].(state := plan.StateAfter(1, Mounted));
  }

  // ----- runs

  /** A host with this one module, no channel registry and no policy. */
  ghost predicate Hosts(host: ModuleHost, manifest: ModuleManifest)
    reads host, host.ingress
  {
    && host.channels == null && host.policy == None && host.ingress.network != null
    && host.moduleOrder == [manifest.moduleId] && HoldsOnly(host.View(), manifest)
  }

  ghost predicate HoldsOnly(view: HostView, manifest: ModuleManifest) {
    view.modules.Keys == {manifest.moduleId} && view.modules[manifest.moduleId].manifest == manifest
  }

  function LonePlan(manifest: ModuleManifest, healthy: set<string>): StartPlan {
    StartPlan([manifest.moduleId], [manifest], [Decision(true, NoReason)], healthy, true)
  }

  lemma LoneModulePlan(host: ModuleHost, manifest: ModuleManifest, healthy: set<string>)
    requires host.Valid() && Hosts(host, manifest) && manifest.requiredModules == []
    ensures host.PlanOf([], healthy) == LonePlan(manifest, healthy)
  {
    hide Hosted, ServiceAgrees, Agreement;
    var plan := host.PlanOf([], healthy);
    assert plan.manifests == [manifest];
    assert plan.decisions[0] == host.Preflight(manifest, []);
  }

  lemma LoneModuleOutcome(manifest: ModuleManifest, healthy: set<string>, before: HostView, after: HostView,
                          reports: seq<ModuleStartReport>)
    requires HasConsumedPackets(manifest) && HoldsOnly(before, manifest)
    requires BatchOutcome(LonePlan(manifest, healthy), false, before, after, reports)
    ensures HoldsOnly(after, manifest)
    ensures after.modules[manifest.moduleId].state == if manifest.moduleId in healthy then Running else StartFailed
    ensures after.served == before.served + if manifest.moduleId in healthy then {manifest.moduleId} else {}
  {
    hide HasConsumedPackets;
    var plan := LonePlan(manifest, healthy);
    assert plan.ServedBelow(1)
        == plan.ServedBelow(0) + if plan.Succeeds(0) && plan.Consumes(0) then {manifest.moduleId} else {};
    if !plan.SucceedsBelow(1) {
      assert RolledBack(plan, before, after, 0);
      var middle :| Attempted(plan, before, middle, 1) && StoppedInReverse(plan.order[..0], true, middle, after);
    }
  }

  /** A run that leaves ingress although nothing runs before or after its last batch: the module starts and is
      subscribed, its restart fails and keeps the subscriptions, and the next batch fails as well. */
  method LeftoverIngress(manifest: ModuleManifest)
    returns (host: ModuleHost, ghost before: HostView, reports: seq<ModuleStartReport>)
    requires manifest.moduleId != "" && HasConsumedPackets(manifest) && manifest.requiredModules == []
    requires manifest.roleFlags == 0 && manifest.supportedPlatforms == []
    ensures fresh(host) && host.Valid() && NoneRunning(before.modules) && NoneRunning(host.View().modules)
    ensures BatchOutcome(LonePlan(manifest, {}), false, before, host.View(), reports)
    ensures before.served == host.View().served == {manifest.moduleId}
  {
    hide *;
    host := HostWith(manifest);
    reports := StartLoneModule(host, manifest, {manifest.moduleId});
    reports := StartLoneModule(host, manifest, {});
    before := host.View();
    reports := StartLoneModule(host, manifest, {});
  }

  method StartLoneModule(host: ModuleHost, manifest: ModuleManifest, healthy: set<string>)
    returns (reports: seq<ModuleStartReport>)
    requires host.Valid() && Hosts(host, manifest) && HasConsumedPackets(manifest) && manifest.requiredModules == []
    modifies host, host.ingress, host.ingress.network
    ensures host.Valid() && Hosts(host, manifest)
    ensures BatchOutcome(LonePlan(manifest, healthy), false, old(host.View()), host.View(), reports)
    ensures NoneRunning(host.View().modules) <==> manifest.moduleId !in healthy
    ensures host.View().served
         == old(host.View()).served + if manifest.moduleId in healthy then {manifest.moduleId} else {}
  {
    hide Hosted, ServiceAgrees, Agreement, Others, HasConsumedPackets, BatchOutcome, AllOrNone, LonePlan;
    ghost var before := host.View();
    LoneModulePlan(host, manifest, healthy);
    reports := host.StartAllowedModules(false, [], healthy);
    LoneModuleOutcome(manifest, healthy, before, host.View(), reports);
  }

  method HostWith(manifest: ModuleManifest) returns (host: ModuleHost)
    requires manifest.moduleId != "" && manifest.roleFlags == 0 && manifest.supportedPlatforms == []
    ensures fresh(host) && fresh(host.ingress) && fresh(host.ingress.network) && host.Valid()
    ensures Hosts(host, manifest) && host.View().served == {}
  {
    var router := new NetworkRouter();
    assert Others(router.subscriptions) == router.subscriptions;
    host := new ModuleHost(router, null, None, 1, "");
    var added := host.AddModule(manifest, true);
  }

  lemma AllSucceed(plan: StartPlan, before: HostView, after: HostView, reports: seq<ModuleStartReport>)
    requires plan.Valid() && plan.SucceedsBelow(|plan.order|)
    requires Attempted(plan, before, after, |plan.order|) && AllReported(plan, reports)
    requires Hosted(before.modules, plan.order) && plan.manifests == ManifestsOf(before.modules, plan.order)
    requires OnlyConsumersServed(before)
    ensures Committed(plan, before, after, reports)
  {
    hide HasConsumedPackets, StartPlan.CallsBelow, StartPlan.ServedBelow, StartPlan.CallsOf;
    var n := |plan.order|;
    SuccessfulCalls(plan, n);
    assert plan.order[..n] == plan.order;
    forall id ensures id in after.served <==> id in after.modules && HasConsumedPackets(after.modules[id].manifest) {
      ServedWhenAllSucceed(plan, n, id);
      if id in after.modules {
        var i :| 0 <= i < n && plan.order[i] == id;
      }
    }
    forall id | id in after.modules ensures after.modules[id].state == Running {
      var i :| 0 <= i < n && plan.order[i] == id;
      assert plan.Succeeds(i);
    }
  }

  lemma RolledBackUndoesStarts(plan: StartPlan, before: HostView, after: HostView, k: nat)
    requires plan.Valid() && k < |plan.order| && RolledBack(plan, before, after, k)
    requires Hosted(before.modules, plan.order)
    requires forall id :: id in before.modules ==> before.modules[id].state != Running
    ensures forall id :: id in after.modules ==> after.modules[id].state != Running
    ensures after.served == before.served - (set id | id in plan.order[..k])
    ensures after.calls == before.calls + StartsOf(plan.order[..k]) + plan.CallsOf(k) + StopsOf(plan.order[..k], true)
  {
    hide HasConsumedPackets, Hosted, StatesAttempted, StartPlan.StateAfter, StartPlan.CallsOf;
    var middle :| Attempted(plan, before, middle, k + 1) && StoppedInReverse(plan.order[..k], true, middle, after);
    SuccessfulCalls(plan, k);
    UndoneServices(plan, k);
    StatesRolledBack(plan, before.modules, middle.modules, k);
  }

  lemma UndoneServices(plan: StartPlan, k: nat)
    requires plan.Valid() && k < |plan.order| && plan.SucceedsBelow(k) && !plan.Succeeds(k)
    ensures plan.ServedBelow(k + 1) == plan.ServedBelow(k)
    ensures forall id :: id in plan.ServedBelow(k) ==> id in plan.order[..k]
  {
    hide StartPlan.Succeeds, StartPlan.Consumes;
    forall id | id in plan.ServedBelow(k) ensures id in plan.order[..k] {
      ServedWhenAllSucceed(plan, k, id);
      var i :| 0 <= i < k && plan.order[i] == id;
      assert plan.order[..k][i] == id;
    }
  }

  lemma StatesRolledBack(plan: StartPlan, before: map<string, HostedModule>, middle: map<string, HostedModule>, k: nat)
    requires plan.Valid() && k < |plan.order| && !plan.Succeeds(k) && StatesAttempted(plan, before, middle, k + 1)
    requires Hosted(before, plan.order) && forall id :: id in before ==> before[id].state != Running
    ensures forall id :: id in middle ==> id in plan.order[..k] || middle[id].state != Running
  {
    hide HasConsumedPackets;
    forall id | id in middle ensures id in plan.order[..k] || middle[id].state != Running {
      var i :| 0 <= i < |plan.order| && plan.order[i] == id;
      assert i < k ==> id == plan.order[..k][i];
    }
  }
}
