/** Composition: pick a module for each request, check it, and order modules by dependency. */
module ModuleComposer {
  import opened ProtocolTypes
  import opened ModuleIngress

  // ----- requests and results

  /** A factory under fixed create options: the ids it supports, its manifest, and whether creation succeeds. */
  datatype ModuleFactory = ModuleFactory(supported: set<string>, manifest: ModuleManifest, creates: bool)

  datatype CreatedModule = CreatedModule(maker: ModuleFactory)

  datatype VersionConstraint = VersionConstraint(moduleId: string, least: ModuleVersion, most: ModuleVersion)

  datatype CompositionRequest = CompositionRequest(requiredModules: seq<string>, constraints: seq<VersionConstraint>)

  datatype DependencyFailure = Requires(moduleId: string, dependency: string) | Cyclic(moduleId: string)

  datatype VersionFailure = VersionFailure(moduleId: string, constraint: VersionConstraint)

  datatype CompositionResult = CompositionResult(
    modules: seq<CreatedModule>,
    manifests: seq<ModuleManifest>,
    missingModules: seq<string>,
    dependencyFailures: seq<DependencyFailure>,
    versionFailures: seq<VersionFailure>)
  {
    predicate Ok() {
      missingModules == [] && dependencyFailures == [] && versionFailures == []
    }
  }

  // ----- the dependency graph

  predicate Depends(m: ModuleManifest, n: ModuleManifest) {
    n.moduleId in m.requiredModules
  }

  ghost predicate IsWalk(walk: seq<ModuleManifest>) {
    forall i :: 0 <= i < |walk| - 1 ==> Depends(walk[i], walk[i + 1])
  }

  /** A walk from the module back to itself, along dependencies among the given modules. */
  ghost predicate OnCycle(manifests: seq<ModuleManifest>, m: ModuleManifest) {
    exists walk :: IsCycle(manifests, walk) && walk[0] == m
  }

  ghost predicate IsCycle(manifests: seq<ModuleManifest>, walk: seq<ModuleManifest>) {
    && |walk| >= 2 && walk[0] == walk[|walk| - 1] && IsWalk(walk)
    && (forall m :: m in walk ==> m in manifests)
  }

  ghost predicate HasCycle(manifests: seq<ModuleManifest>) {
    exists m :: OnCycle(manifests, m)
  }

  ghost predicate DistinctIds(manifests: seq<ModuleManifest>) {
    forall i, j :: 0 <= i < j < |manifests| ==> manifests[i].moduleId != manifests[j].moduleId
  }

  /** Every dependency among the modules comes before its dependant. */
  ghost predicate Sorted(manifests: seq<ModuleManifest>) {
    forall i, j :: 0 <= i < |manifests| && 0 <= j < |manifests| && Depends(manifests[i], manifests[j]) ==> j < i
  }

  lemma {:induction false} WalkGoesBack(manifests: seq<ModuleManifest>, walk: seq<ModuleManifest>, i: nat)
    returns (j: nat)
    requires Sorted(manifests) && IsWalk(walk) && |walk| >= 2 && forall m :: m in walk ==> m in manifests
    requires i < |manifests| && manifests[i] == walk[0]
    ensures j < i && manifests[j] == walk[|walk| - 1]
  {
    assert Depends(walk[0], walk[1]) && walk[1] in manifests;
    j :| 0 <= j < |manifests| && manifests[j] == walk[1];
    if |walk| > 2 {
      forall k | 0 <= k < |walk| - 2 ensures Depends(walk[1..][k], walk[1..][k + 1]) {
        assert Depends(walk[k + 1], walk[k + 1 + 1]);
      }
      j := WalkGoesBack(manifests, walk[1..], j);
    }
  }

  /** Only an acyclic graph can be put in dependency order. */
  lemma SortedHasNoCycle(manifests: seq<ModuleManifest>)
    requires Sorted(manifests) && DistinctIds(manifests)
    ensures !HasCycle(manifests)
  {
    if HasCycle(manifests) {
      var m :| OnCycle(manifests, m);
      var walk :| IsCycle(manifests, walk) && walk[0] == m;
      assert walk[0] in manifests;
      var i :| 0 <= i < |manifests| && manifests[i] == walk[0];
      var j := WalkGoesBack(manifests, walk, i);
      assert false;
    }
  }

  // ----- depth-first ordering

  ghost predicate Indexed(manifests: seq<ModuleManifest>, index: map<string, nat>) {
    && (forall id :: id in index ==> index[id] < |manifests| && manifests[index[id]].moduleId == id)
    && (forall i :: 0 <= i < |manifests| ==> manifests[i].moduleId in index && index[manifests[i].moduleId] == i)
  }

  /** White nodes are 0; grey nodes, 1, are those on the path; black nodes, 2, are those already ordered. */
  ghost predicate Coloured(n: nat, colours: seq<nat>, path: seq<nat>, order: seq<nat>) {
    && |colours| == n
    && (forall i :: 0 <= i < n ==> colours[i] <= 2)
    && (forall i :: i in path <==> 0 <= i < n && colours[i] == 1)
    && (forall i :: i in order <==> 0 <= i < n && colours[i] == 2)
    && (forall i, j :: 0 <= i < j < |order| ==> order[i] != order[j])
  }

  ghost predicate IsPath(manifests: seq<ModuleManifest>, path: seq<nat>) {
    && (forall k :: 0 <= k < |path| ==> path[k] < |manifests|)
    && (forall k :: 0 <= k < |path| - 1 ==> Depends(manifests[path[k]], manifests[path[k + 1]]))
  }

  ghost predicate DependenciesFirst(manifests: seq<ModuleManifest>, order: seq<nat>) {
    && (forall q :: 0 <= q < |order| ==> order[q] < |manifests|)
    && (forall q, d :: 0 <= q < |order| && 0 <= d < |manifests| && Depends(manifests[order[q]], manifests[d]) ==>
        d in order[..q])
  }

  ghost predicate CyclesAreReal(manifests: seq<ModuleManifest>, failures: seq<DependencyFailure>, known: nat) {
    known <= |failures|
    && forall k :: known <= k < |failures| ==>
         && failures[k].Cyclic?
         && exists m :: m in manifests && m.moduleId == failures[k].moduleId && OnCycle(manifests, m)
  }

  lemma GreyClosesCycle(manifests: seq<ModuleManifest>, path: seq<nat>, i: nat)
    requires IsPath(manifests, path) && i in path && Depends(manifests[path[|path| - 1]], manifests[i])
    ensures OnCycle(manifests, manifests[i])
  {
    var k :| 0 <= k < |path| && path[k] == i;
    var nodes := path[k..] + [i];
    var walk := seq(|nodes|, j requires 0 <= j < |nodes| => manifests[nodes[j]]);
    assert IsWalk(walk);
    assert IsCycle(manifests, walk) && walk[0] == manifests[i];
  }

  lemma CycleReported(manifests: seq<ModuleManifest>, failures: seq<DependencyFailure>, known: nat, i: nat)
    requires CyclesAreReal(manifests, failures, known) && i < |manifests| && OnCycle(manifests, manifests[i])
    ensures known <= |failures| && CyclesAreReal(manifests, failures + [Cyclic(manifests[i].moduleId)], known)
  {
  }

  lemma PathExtends(manifests: seq<ModuleManifest>, path: seq<nat>, i: nat)
    requires IsPath(manifests, path) && i < |manifests|
    requires path != [] ==> Depends(manifests[path[|path| - 1]], manifests[i])
    ensures IsPath(manifests, path + [i])
  {
    hide Depends;
  }

  lemma TurnsGrey(n: nat, colours: seq<nat>, path: seq<nat>, order: seq<nat>, i: nat)
    requires Coloured(n, colours, path, order) && i < n && colours[i] == 0
    ensures Coloured(n, colours[i := 1], path + [i], order)
  {
  }

  lemma TurnsBlack(n: nat, colours: seq<nat>, path: seq<nat>, order: seq<nat>, i: nat)
    requires Coloured(n, colours, path + [i], order) && i !in path
    ensures i < n == |colours| && colours[i] == 1
    ensures Coloured(n, colours[i := 2], path, order + [i])
  {
    assert i in path + [i];
  }

  lemma ColoursOf(n: nat, colours: seq<nat>, path: seq<nat>, order: seq<nat>, i: nat)
    requires Coloured(n, colours, path, order) && i < n
    ensures |colours| == n && colours[i] <= 2
    ensures colours[i] == 1 <==> i in path
    ensures colours[i] == 2 <==> i in order
  {
  }

  /** A node may be finished once every dependency that has a node is black. */
  lemma FinishedInOrder(manifests: seq<ModuleManifest>, index: map<string, nat>, order: seq<nat>, i: nat)
    requires Indexed(manifests, index) && DependenciesFirst(manifests, order) && i < |manifests|
    requires forall id :: id in manifests[i].requiredModules && id in index ==> index[id] in order
    ensures DependenciesFirst(manifests, order + [i])
  {
    forall q, d | 0 <= q <= |order| && 0 <= d < |manifests| && Depends(manifests[(order + [i])[q]], manifests[d])
      ensures d in (order + [i])[..q]
    {
      assert (order + [i])[..q] == order[..q];
      assert index[manifests[d].moduleId] == d;
    }
  }

  ghost function Whites(colours: seq<nat>): set<nat> {
    set i | 0 <= i < |colours| && colours[i] == 0
  }

  lemma {:induction false} SubsetSize(a: set<nat>, b: set<nat>)
    requires a <= b
    ensures |a| <= |b|
  {
    if a != {} {
      var x :| x in a;
      SubsetSize(a - {x}, b - {x});
    }
  }

  /** `now` has every node coloured that `before` had, and `i` as well. */
  lemma FewerWhites(before: seq<nat>, now: seq<nat>, i: nat)
    requires |before| == |now| && i < |now| && before[i] == 0 && now[i] != 0
    requires Progress(before, now, i)
    ensures |Whites(now)| < |Whites(before)|
  {
    assert i in Whites(before);
    SubsetSize(Whites(now), Whites(before) - {i});
  }

  /** Apart from `i`, a node that had a colour still has it. */
  ghost predicate Progress(before: seq<nat>, now: seq<nat>, i: nat) {
    |before| == |now| && forall k :: 0 <= k < |before| && before[k] != 0 && k != i ==> now[k] == before[k]
  }

  class DependencyOrder {
    const manifests: seq<ModuleManifest>
    const index: map<string, nat>
    ghost const known: nat
    var visitState: seq<nat>
    var order: seq<nat>
    var failures: seq<DependencyFailure>

    ghost predicate Valid(path: seq<nat>)
      reads this
    {
      && Indexed(manifests, index)
      && Coloured(|manifests|, visitState, path, order)
      && IsPath(manifests, path)
      && CyclesAreReal(manifests, failures, known)
      && (!FoundCycle() ==> DependenciesFirst(manifests, order))
    }

    ghost predicate FoundCycle()
      reads this
    {
      |failures| > known
    }

    constructor (manifests: seq<ModuleManifest>, index: map<string, nat>, failures: seq<DependencyFailure>)
      requires Indexed(manifests, index)
      ensures Valid([]) && this.manifests == manifests && this.failures == failures && known == |failures|
      ensures forall i :: 0 <= i < |manifests| ==> visitState[i] == 0
    {
      this.manifests, this.index, this.failures, known := manifests, index, failures, |failures|;
      visitState, order := seq(|manifests|, i => 0), [];
    }

    /** Depth-first visit; the recursion stops because every nested visit finds fewer white nodes. */
    method Visit(i: nat, ghost path: seq<nat>)
      requires Valid(path) && i < |manifests|
      requires path != [] ==> Depends(manifests[path[|path| - 1]], manifests[i])
      modifies this
      ensures Valid(path)
      ensures |visitState| == |manifests| && (visitState[i] == 2 || FoundCycle()) && visitState[i] != 0
      ensures Progress(old(visitState), visitState, |manifests|)
      ensures old(failures) <= failures
      decreases |Whites(visitState)|
    {
      hide Indexed, Coloured, IsPath, CyclesAreReal, DependenciesFirst, OnCycle;
      ColoursOf(|manifests|, visitState, path, order, i);
      if visitState[i] == 2 {
        return;
      }
      if visitState[i] == 1 {
        GreyClosesCycle(manifests, path, i);
        CycleReported(manifests, failures, known, i);
        failures := failures + [Cyclic(manifests[i].moduleId)];
        return;
      }
      TurnsGrey(|manifests|, visitState, path, order, i);
      PathExtends(manifests, path, i);
      visitState := visitState[i := 1];
      var required := manifests[i].requiredModules;
      for k := 0 to |required|
        invariant Valid(path + [i])
        invariant |visitState| == |manifests| && visitState[i] == 1 && Progress(old(visitState), visitState, i)
        invariant old(failures) <= failures
        invariant forall j :: 0 <= j < k && required[j] in index ==> FoundCycle() || IsBlack(index[required[j]])
      {
        if required[k] in index {
          IndexedNode(manifests, index, required[k]);
          FewerWhites(old(visitState), visitState, i);
          Visit(index[required[k]], path + [i]);
        }
      }
      TurnsBlack(|manifests|, visitState, path, order, i);
      if !FoundCycle() {
        forall id | id in required && id in index ensures index[id] in order {
          ColoursOf(|manifests|, visitState, path + [i], order, index[id]);
        }
        FinishedInOrder(manifests, index, order, i);
      }
      visitState := visitState[i := 2];
      order := order + [i];
    }

    ghost predicate IsBlack(i: nat)
      reads this
    {
      i < |manifests| && i < |visitState| && visitState[i] == 2
    }
  }

  lemma IndexedNode(manifests: seq<ModuleManifest>, index: map<string, nat>, id: string)
    requires Indexed(manifests, index) && id in index
    ensures index[id] < |manifests| && manifests[index[id]].moduleId == id
  {
  }

  // ----- every module once, dependencies first

  ghost predicate IsPermutation(order: seq<nat>, n: nat) {
    && (forall k :: 0 <= k < |order| ==> order[k] < n)
    && (forall i :: 0 <= i < n ==> i in order)
    && (forall i, j :: 0 <= i < j < |order| ==> order[i] != order[j])
  }

  lemma {:induction false} PermutationLength(order: seq<nat>, n: nat)
    requires IsPermutation(order, n)
    ensures |order| == n
  {
    if n > 0 {
      assert n - 1 in order;
      var p :| 0 <= p < |order| && order[p] == n - 1;
      var rest := order[..p] + order[p + 1..];
      forall i | 0 <= i < n - 1 ensures i in rest {
        assert order == order[..p] + [order[p]] + order[p + 1..];
        assert i in order;
      }
      forall k | 0 <= k < |rest| ensures rest[k] < n - 1 {
        assert rest[k] == if k < p then order[k] else order[k + 1];
      }
      PermutationLength(rest, n - 1);
    }
  }

  /** The rearranged lists hold the same manifests, each still beside its own module. */
  ghost predicate Rearranged(manifests: seq<ModuleManifest>, modules: seq<CreatedModule>,
                             sortedManifests: seq<ModuleManifest>, sortedModules: seq<CreatedModule>, order: seq<nat>)
    requires |manifests| == |modules|
  {
    && |sortedManifests| == |sortedModules| == |order| == |manifests| && IsPermutation(order, |manifests|)
    && (forall k :: 0 <= k < |order| ==>
          sortedManifests[k] == manifests[order[k]] && sortedModules[k] == modules[order[k]])
  }

  lemma OrderedIsSorted(manifests: seq<ModuleManifest>, modules: seq<CreatedModule>,
                        sortedManifests: seq<ModuleManifest>, sortedModules: seq<CreatedModule>, order: seq<nat>)
    requires |manifests| == |modules| && Rearranged(manifests, modules, sortedManifests, sortedModules, order)
    requires DependenciesFirst(manifests, order)
    ensures Sorted(sortedManifests)
  {
    hide Depends;
    forall i, j | 0 <= i < |order| && 0 <= j < |order| && Depends(sortedManifests[i], sortedManifests[j])
      ensures j < i {
      assert order[j] in order[..i];
    }
  }

  lemma RearrangedSame(manifests: seq<ModuleManifest>, modules: seq<CreatedModule>,
                       sortedManifests: seq<ModuleManifest>, sortedModules: seq<CreatedModule>, order: seq<nat>)
    requires |manifests| == |modules| && DistinctIds(manifests)
    requires Rearranged(manifests, modules, sortedManifests, sortedModules, order)
    ensures DistinctIds(sortedManifests)
    ensures forall m :: m in sortedManifests <==> m in manifests
    ensures HasCycle(sortedManifests) <==> HasCycle(manifests)
  {
    forall i, j | 0 <= i < j < |sortedManifests| ensures sortedManifests[i].moduleId != sortedManifests[j].moduleId {
      assert order[i] != order[j];
    }
    forall m | m in manifests ensures m in sortedManifests {
      var i :| 0 <= i < |manifests| && manifests[i] == m;
      assert i in order;
      var k :| 0 <= k < |order| && order[k] == i;
      assert sortedManifests[k] == m;
    }
    SameCycles(manifests, sortedManifests);
    SameCycles(sortedManifests, manifests);
  }

  lemma SameCycles(a: seq<ModuleManifest>, b: seq<ModuleManifest>)
    requires forall m :: m in a ==> m in b
    ensures forall m :: OnCycle(a, m) ==> OnCycle(b, m)
    ensures HasCycle(a) ==> HasCycle(b)
  {
    forall m | OnCycle(a, m) ensures OnCycle(b, m) {
      var walk :| IsCycle(a, walk) && walk[0] == m;
      assert IsCycle(b, walk);
    }
  }

  /** The second half of compose: order the created modules. A cycle is reported exactly when there is one. */
  method SortByDependency(manifests: seq<ModuleManifest>, modules: seq<CreatedModule>, missing: seq<DependencyFailure>)
    returns (sortedManifests: seq<ModuleManifest>, sortedModules: seq<CreatedModule>, failures: seq<DependencyFailure>,
             ghost order: seq<nat>)
    requires |manifests| == |modules| && DistinctIds(manifests)
    ensures Rearranged(manifests, modules, sortedManifests, sortedModules, order)
    ensures missing <= failures && CyclesAreReal(manifests, failures, |missing|)
    ensures failures != missing <==> HasCycle(manifests)
    ensures failures == missing ==> Sorted(sortedManifests)
  {
    hide OnCycle, DependenciesFirst, IsPath, Sorted, HasCycle, Depends;
    var index: map<string, nat> := map[];
    for i := 0 to |manifests|
      invariant forall id :: id in index ==> index[id] < i && manifests[index[id]].moduleId == id
      invariant forall k :: 0 <= k < i ==> manifests[k].moduleId in index && index[manifests[k].moduleId] == k
    {
      index := index[manifests[i].moduleId := i];
    }
    var visitor := new DependencyOrder(manifests, index, missing);
    for i := 0 to |manifests|
      invariant visitor.Valid([]) && missing <= visitor.failures
      invariant forall k :: 0 <= k < i ==> visitor.visitState[k] != 0
    {
      visitor.Visit(i, []);
    }
    sortedManifests, sortedModules, failures, order := manifests, modules, visitor.failures, visitor.order;
    VisitedAll(|manifests|, visitor.visitState, order);
    PermutationLength(order, |manifests|);
    if |visitor.order| == |manifests| {
      sortedManifests, sortedModules := [], [];
      for k := 0 to |visitor.order|
        invariant |sortedManifests| == |sortedModules| == k
        invariant forall j :: 0 <= j < k ==>
                    sortedManifests[j] == manifests[order[j]] && sortedModules[j] == modules[order[j]]
      {
        sortedManifests := sortedManifests + [manifests[visitor.order[k]]];
        sortedModules := sortedModules + [modules[visitor.order[k]]];
      }
    }
    RearrangedSame(manifests, modules, sortedManifests, sortedModules, order);
    if visitor.FoundCycle() {
      FoundCycleIsReal(manifests, failures, |missing|);
    } else {
      OrderedIsSorted(manifests, modules, sortedManifests, sortedModules, order);
      SortedHasNoCycle(sortedManifests);
    }
  }

  lemma VisitedAll(n: nat, colours: seq<nat>, order: seq<nat>)
    requires Coloured(n, colours, [], order) && forall k :: 0 <= k < n ==> colours[k] != 0
    ensures IsPermutation(order, n)
  {
    forall k | 0 <= k < |order| ensures order[k] < n {
      assert order[k] in order;
    }
    forall i | 0 <= i < n ensures i in order {
      assert i !in [];
    }
  }

  lemma FoundCycleIsReal(manifests: seq<ModuleManifest>, failures: seq<DependencyFailure>, known: nat)
    requires CyclesAreReal(manifests, failures, known) && |failures| > known
    ensures HasCycle(manifests)
  {
    assert failures[known].Cyclic?;
  }

  // ----- selection

  datatype Pending = Pending(requested: string, factory: ModuleFactory) {
    function Id(): string {
      factory.manifest.moduleId
    }

    predicate Targets(c: VersionConstraint) {
      c.moduleId == requested || c.moduleId == Id()
    }

    predicate Violates(c: VersionConstraint) {
      Targets(c) && !factory.manifest.version.InRange(c.least, c.most)
    }
  }

  function FindFactory(factories: seq<ModuleFactory>, requested: string): Option<ModuleFactory> {
    if factories == [] then None
    else if requested in factories[0].supported then Some(factories[0])
    else FindFactory(factories[1..], requested)
  }

  /** A request that some factory supports under a non-empty module id. */
  predicate Resolves(factories: seq<ModuleFactory>, requested: string) {
    FindFactory(factories, requested).Some? && FindFactory(factories, requested).value.manifest.moduleId != ""
  }

  /** The resolved requests, in order. */
  function PendingOf(factories: seq<ModuleFactory>, required: seq<string>): seq<Pending> {
    if required == [] then [] else
      PendingOf(factories, required[..|required| - 1])
      + if Resolves(factories, required[|required| - 1])
        then [Pending(required[|required| - 1], FindFactory(factories, required[|required| - 1]).value)] else []
  }

  ghost predicate Blocked(pending: seq<Pending>, constraints: seq<VersionConstraint>, id: string) {
    exists k, c :: 0 <= k < |pending| && pending[k].Id() == id && c in constraints && pending[k].Violates(c)
  }

  /** No earlier pending selection of the same module could be created. */
  ghost predicate Untaken(pending: seq<Pending>, k: nat)
    requires k < |pending|
  {
    forall j :: 0 <= j < k && pending[j].Id() == pending[k].Id() ==> !pending[j].factory.creates
  }

  /** The selection that provides its module: not blocked by version, and the first that can be created. */
  ghost predicate Chosen(pending: seq<Pending>, constraints: seq<VersionConstraint>, k: nat)
    requires k < |pending|
  {
    !Blocked(pending, constraints, pending[k].Id()) && pending[k].factory.creates && Untaken(pending, k)
  }

  ghost predicate CreationFails(pending: seq<Pending>, constraints: seq<VersionConstraint>, k: nat)
    requires k < |pending|
  {
    !Blocked(pending, constraints, pending[k].Id()) && !pending[k].factory.creates && Untaken(pending, k)
  }

  method ResolveRequests(factories: seq<ModuleFactory>, required: seq<string>)
    returns (pending: seq<Pending>, missing: seq<string>)
    ensures pending == PendingOf(factories, required)
    ensures forall r :: r in missing <==> r in required && !Resolves(factories, r)
  {
    pending, missing := [], [];
    for i := 0 to |required|
      invariant pending == PendingOf(factories, required[..i])
      invariant forall r :: r in missing <==> r in required[..i] && !Resolves(factories, r)
    {
      assert required[..i + 1][..i] == required[..i];
      var factory := FindFactory(factories, required[i]);
      if factory == None || factory.value.manifest.moduleId == "" {
        missing := missing + [required[i]];
      } else {
        pending := pending + [Pending(required[i], factory.value)];
      }
    }
    assert required[..|required|] == required;
  }

  /** One failure for each constraint the selection violates, in order. */
  function Violations(selection: Pending, constraints: seq<VersionConstraint>): (failures: seq<VersionFailure>)
    ensures forall f :: f in failures <==>
              f.moduleId == selection.Id() && f.constraint in constraints && selection.Violates(f.constraint)
  {
    if constraints == [] then [] else
      var c := constraints[|constraints| - 1];
      assert constraints == constraints[..|constraints| - 1] + [c];
      Violations(selection, constraints[..|constraints| - 1])
      + if selection.Violates(c) then [VersionFailure(selection.Id(), c)] else []
  }

  method AppendVersionFailures(selection: Pending, constraints: seq<VersionConstraint>, failures: seq<VersionFailure>)
    returns (appended: seq<VersionFailure>)
    ensures appended == failures + Violations(selection, constraints)
  {
    appended := failures;
    for i := 0 to |constraints|
      invariant appended == failures + Violations(selection, constraints[..i])
    {
      assert constraints[..i + 1][..i] == constraints[..i];
      var c := constraints[i];
      if !selection.Targets(c) || selection.factory.manifest.version.InRange(c.least, c.most) {
        continue;
      }
      appended := appended + [VersionFailure(selection.Id(), c)];
    }
    assert constraints[..|constraints|] == constraints;
  }

  /** The constraint is violated by a pending selection of the module, and by the first that violates any. */
  ghost predicate FailureIsReal(pending: seq<Pending>, constraints: seq<VersionConstraint>, f: VersionFailure) {
    exists k :: 0 <= k < |pending| && FailsFirst(pending, constraints, f, k)
  }

  ghost predicate FailsFirst(pending: seq<Pending>, constraints: seq<VersionConstraint>, f: VersionFailure, k: nat)
    requires k < |pending|
  {
    f in Violations(pending[k], constraints) && !Blocked(pending[..k], constraints, f.moduleId)
  }

  method CheckVersions(pending: seq<Pending>, constraints: seq<VersionConstraint>)
    returns (blocked: set<string>, failures: seq<VersionFailure>)
    ensures forall id :: id in blocked <==> Blocked(pending, constraints, id)
    ensures forall f :: f in failures <==> FailureIsReal(pending, constraints, f)
    ensures failures == [] <==> blocked == {}
  {
    hide Blocked, FailureIsReal;
    blocked, failures := {}, [];
    NobodyFails(constraints);
    for i := 0 to |pending|
      invariant forall id :: id in blocked <==> Blocked(pending[..i], constraints, id)
      invariant forall f :: f in failures <==> FailureIsReal(pending[..i], constraints, f)
      invariant failures == [] <==> blocked == {}
    {
      BlockedGrows(pending, constraints, i);
      FailuresGrow(pending, constraints, i);
      if pending[i].Id() in blocked {
        continue;
      }
      var before := failures;
      failures := AppendVersionFailures(pending[i], constraints, failures);
      SomeViolation(pending[i], constraints);
      if |failures| != |before| {
        blocked := blocked + {pending[i].Id()};
      }
    }
    assert pending[..|pending|] == pending;
  }

  lemma NobodyFails(constraints: seq<VersionConstraint>)
    ensures forall id :: !Blocked([], constraints, id)
    ensures forall f :: !FailureIsReal([], constraints, f)
  {
  }

  lemma SomeViolation(selection: Pending, constraints: seq<VersionConstraint>)
    ensures Violations(selection, constraints) != [] <==> exists c :: c in constraints && selection.Violates(c)
  {
    if c :| c in constraints && selection.Violates(c) {
      assert VersionFailure(selection.Id(), c) in Violations(selection, constraints);
    }
    if Violations(selection, constraints) != [] {
      assert Violations(selection, constraints)[0] in Violations(selection, constraints);
    }
  }

  lemma FailuresGrow(pending: seq<Pending>, constraints: seq<VersionConstraint>, i: nat)
    requires i < |pending|
    ensures forall f :: FailureIsReal(pending[..i + 1], constraints, f) <==>
              FailureIsReal(pending[..i], constraints, f)
              || (f in Violations(pending[i], constraints) && !Blocked(pending[..i], constraints, pending[i].Id()))
  {
    hide Blocked;
    var longer, shorter := pending[..i + 1], pending[..i];
    forall k | 0 <= k <= i ensures longer[..k] == pending[..k] {
    }
    forall k | 0 <= k < i ensures shorter[..k] == pending[..k] {
    }
    forall f | FailureIsReal(longer, constraints, f)
      ensures FailureIsReal(shorter, constraints, f)
              || (f in Violations(pending[i], constraints) && !Blocked(shorter, constraints, f.moduleId))
    {
      var k :| 0 <= k < |longer| && FailsFirst(longer, constraints, f, k);
      assert k < i ==> FailsFirst(shorter, constraints, f, k);
    }
    forall f | FailureIsReal(shorter, constraints, f) ensures FailureIsReal(longer, constraints, f) {
      var k :| 0 <= k < |shorter| && FailsFirst(shorter, constraints, f, k);
      assert FailsFirst(longer, constraints, f, k);
    }
    forall f | f in Violations(pending[i], constraints) && !Blocked(shorter, constraints, pending[i].Id())
      ensures FailureIsReal(longer, constraints, f)
    {
      assert FailsFirst(longer, constraints, f, i);
    }
  }

  lemma BlockedGrows(pending: seq<Pending>, constraints: seq<VersionConstraint>, i: nat)
    requires i < |pending|
    ensures forall id :: Blocked(pending[..i + 1], constraints, id) <==>
              Blocked(pending[..i], constraints, id)
              || (id == pending[i].Id() && exists c :: c in constraints && pending[i].Violates(c))
  {
    var longer, shorter := pending[..i + 1], pending[..i];
    forall id | Blocked(shorter, constraints, id) ensures Blocked(longer, constraints, id) {
      var k, c :| 0 <= k < |shorter| && shorter[k].Id() == id && c in constraints && shorter[k].Violates(c);
      assert longer[k].Id() == id && longer[k].Violates(c);
    }
    forall id | Blocked(longer, constraints, id)
      ensures Blocked(shorter, constraints, id)
              || (id == pending[i].Id() && exists c :: c in constraints && pending[i].Violates(c))
    {
      var k, c :| 0 <= k < |longer| && longer[k].Id() == id && c in constraints && longer[k].Violates(c);
      assert k < i ==> shorter[k].Id() == id && shorter[k].Violates(c);
    }
    assert longer[i] == pending[i];
  }

  ghost predicate Usable(pending: seq<Pending>, constraints: seq<VersionConstraint>, n: nat, id: string)
    requires n <= |pending|
  {
    !Blocked(pending, constraints, id) && exists j :: 0 <= j < n && pending[j].Id() == id && pending[j].factory.creates
  }

  lemma UntakenMeansUnusable(pending: seq<Pending>, constraints: seq<VersionConstraint>, k: nat)
    requires k < |pending| && !Blocked(pending, constraints, pending[k].Id())
    ensures Untaken(pending, k) <==> !Usable(pending, constraints, k, pending[k].Id())
  {
    hide Blocked;
  }

  /** The manifests and modules of the first `n` pending selections that were chosen. */
  ghost predicate Provides(pending: seq<Pending>, constraints: seq<VersionConstraint>, n: nat,
                           manifests: seq<ModuleManifest>, modules: seq<CreatedModule>)
    requires n <= |pending|
  {
    && |manifests| == |modules| && DistinctIds(manifests)
    && (forall i :: 0 <= i < |modules| ==> FromChosen(pending, constraints, n, manifests[i], modules[i]))
    && (forall j :: 0 <= j < n && Chosen(pending, constraints, j) ==> pending[j].factory.manifest in manifests)
  }

  ghost predicate FromChosen(pending: seq<Pending>, constraints: seq<VersionConstraint>, n: nat,
                             manifest: ModuleManifest, made: CreatedModule)
    requires n <= |pending|
  {
    && made.maker.manifest == manifest
    && exists j :: 0 <= j < n && Chosen(pending, constraints, j) && pending[j].factory == made.maker
  }

  ghost predicate SomeCreationFails(pending: seq<Pending>, constraints: seq<VersionConstraint>, n: nat, id: string)
    requires n <= |pending|
  {
    exists j :: 0 <= j < n && pending[j].Id() == id && CreationFails(pending, constraints, j)
  }

  ghost predicate NamedIn(manifests: seq<ModuleManifest>, id: string) {
    exists i :: 0 <= i < |manifests| && manifests[i].moduleId == id
  }

  lemma ProvidesOneMore(pending: seq<Pending>, constraints: seq<VersionConstraint>, n: nat,
                        manifests: seq<ModuleManifest>, modules: seq<CreatedModule>)
    requires n < |pending| && Provides(pending, constraints, n, manifests, modules)
    requires Chosen(pending, constraints, n) && !NamedIn(manifests, pending[n].Id())
    ensures Provides(pending, constraints, n + 1, manifests + [pending[n].factory.manifest],
                     modules + [CreatedModule(pending[n].factory)])
  {
    hide Chosen;
    var f := pending[n].factory;
    forall i | 0 <= i <= |modules|
      ensures FromChosen(pending, constraints, n + 1, (manifests + [f.manifest])[i], (modules + [CreatedModule(f)])[i])
    {
      assert i < |modules| ==> FromChosen(pending, constraints, n, manifests[i], modules[i]);
    }
  }

  lemma ProvidesNoMore(pending: seq<Pending>, constraints: seq<VersionConstraint>, n: nat,
                       manifests: seq<ModuleManifest>, modules: seq<CreatedModule>)
    requires n < |pending| && Provides(pending, constraints, n, manifests, modules) && !Chosen(pending, constraints, n)
    ensures Provides(pending, constraints, n + 1, manifests, modules)
  {
    hide Chosen;
    forall i | 0 <= i < |modules| ensures FromChosen(pending, constraints, n + 1, manifests[i], modules[i]) {
      assert FromChosen(pending, constraints, n, manifests[i], modules[i]);
    }
  }

  method CreateSelected(pending: seq<Pending>, ghost constraints: seq<VersionConstraint>, blocked: set<string>)
    returns (manifests: seq<ModuleManifest>, modules: seq<CreatedModule>, selected: set<string>, missing: seq<string>)
    requires forall id :: id in blocked <==> Blocked(pending, constraints, id)
    ensures Provides(pending, constraints, |pending|, manifests, modules)
    ensures forall id :: id in selected <==> NamedIn(manifests, id)
    ensures forall id :: id in missing <==> SomeCreationFails(pending, constraints, |pending|, id)
  {
    hide Blocked, Provides, Untaken, Usable, NamedIn, SomeCreationFails;
    manifests, modules, selected, missing := [], [], {}, [];
    NothingProvided(pending, constraints);
    for i := 0 to |pending|
      invariant Provides(pending, constraints, i, manifests, modules)
      invariant forall id :: id in selected <==> NamedIn(manifests, id)
      invariant forall id :: id in selected <==> Usable(pending, constraints, i, id)
      invariant forall id :: id in missing <==> SomeCreationFails(pending, constraints, i, id)
    {
      var id, factory := pending[i].Id(), pending[i].factory;
      SelectionGrows(pending, constraints, i);
      if id in blocked {
        ProvidesNoMore(pending, constraints, i, manifests, modules);
        continue;
      }
      UntakenMeansUnusable(pending, constraints, i);
      if id in selected {
        ProvidesNoMore(pending, constraints, i, manifests, modules);
        continue;
      }
      if !factory.creates {
        ProvidesNoMore(pending, constraints, i, manifests, modules);
        assert CreationFails(pending, constraints, i);
        ghost var others := missing;
        missing := missing + [id];
        assert forall x :: x in missing <==> x in others || x == id;
        continue;
      }
      ProvidesOneMore(pending, constraints, i, manifests, modules);
      NamesGrow(manifests, factory.manifest);
      selected := selected + {id};
      manifests := manifests + [factory.manifest];
      modules := modules + [CreatedModule(factory)];
    }
  }

  lemma NothingProvided(pending: seq<Pending>, constraints: seq<VersionConstraint>)
    ensures Provides(pending, constraints, 0, [], [])
    ensures forall id :: !NamedIn([], id) && !Usable(pending, constraints, 0, id)
    ensures forall id :: !SomeCreationFails(pending, constraints, 0, id)
  {
  }

  lemma NamesGrow(manifests: seq<ModuleManifest>, m: ModuleManifest)
    ensures forall id :: NamedIn(manifests + [m], id) <==> NamedIn(manifests, id) || id == m.moduleId
  {
    var longer := manifests + [m];
    forall id | NamedIn(manifests, id) ensures NamedIn(longer, id) {
      var i :| 0 <= i < |manifests| && manifests[i].moduleId == id;
      assert longer[i].moduleId == id;
    }
    assert longer[|manifests|] == m;
  }

  lemma SelectionGrows(pending: seq<Pending>, constraints: seq<VersionConstraint>, k: nat)
    requires k < |pending|
    ensures forall id :: Usable(pending, constraints, k + 1, id) <==>
              Usable(pending, constraints, k, id)
              || (id == pending[k].Id() && !Blocked(pending, constraints, id) && pending[k].factory.creates)
    ensures forall id :: SomeCreationFails(pending, constraints, k + 1, id) <==>
              SomeCreationFails(pending, constraints, k, id)
              || (id == pending[k].Id() && CreationFails(pending, constraints, k))
  {
    hide Blocked, Untaken;
    forall id | SomeCreationFails(pending, constraints, k + 1, id) && !SomeCreationFails(pending, constraints, k, id)
      ensures id == pending[k].Id() && CreationFails(pending, constraints, k)
    {
      var j :| 0 <= j < k + 1 && pending[j].Id() == id && CreationFails(pending, constraints, j);
    }
  }

  /** A selected module requires a module that was not selected. */
  ghost predicate Unmet(manifests: seq<ModuleManifest>, f: DependencyFailure) {
    f.Requires? && !NamedIn(manifests, f.dependency)
    && exists m :: m in manifests && m.moduleId == f.moduleId && f.dependency in m.requiredModules
  }

  method CheckDependencies(manifests: seq<ModuleManifest>, selected: set<string>)
    returns (failures: seq<DependencyFailure>)
    requires forall id :: id in selected <==> NamedIn(manifests, id)
    ensures forall f :: f in failures <==> Unmet(manifests, f)
  {
    hide NamedIn;
    failures := [];
    for i := 0 to |manifests|
      invariant forall f :: f in failures ==> Unmet(manifests, f)
      invariant forall k, d :: 0 <= k < i && d in manifests[k].requiredModules && d !in selected ==>
                  Requires(manifests[k].moduleId, d) in failures
    {
      var required := manifests[i].requiredModules;
      for k := 0 to |required|
        invariant forall f :: f in failures ==> Unmet(manifests, f)
        invariant forall k, d :: 0 <= k < i && d in manifests[k].requiredModules && d !in selected ==>
                    Requires(manifests[k].moduleId, d) in failures
        invariant forall j :: 0 <= j < k && required[j] !in selected ==>
                    Requires(manifests[i].moduleId, required[j]) in failures
      {
        if required[k] !in selected {
          assert Unmet(manifests, Requires(manifests[i].moduleId, required[k]));
          failures := failures + [Requires(manifests[i].moduleId, required[k])];
        }
      }
    }
  }

  /** Everything a caller may rely on in a composition. */
  ghost predicate Composed(factories: seq<ModuleFactory>, request: CompositionRequest, result: CompositionResult) {
    var pending := PendingOf(factories, request.requiredModules);
    && Provides(pending, request.constraints, |pending|, result.manifests, result.modules)
    && (forall r :: r in result.missingModules <==>
          (r in request.requiredModules && !Resolves(factories, r))
            || SomeCreationFails(pending, request.constraints, |pending|, r))
    && (forall f :: f in result.versionFailures <==> FailureIsReal(pending, request.constraints, f))
    && (result.versionFailures == [] <==> forall id :: !Blocked(pending, request.constraints, id))
    && (forall f :: f in result.dependencyFailures && f.Requires? <==> Unmet(result.manifests, f))
    && (forall f :: f in result.dependencyFailures && f.Cyclic? ==>
          exists m :: m in result.manifests && m.moduleId == f.moduleId && OnCycle(result.manifests, m))
    && ((exists f :: f in result.dependencyFailures && f.Cyclic?) <==> HasCycle(result.manifests))
    && (HasCycle(result.manifests) || Sorted(result.manifests))
  }

  method Compose(factories: seq<ModuleFactory>, request: CompositionRequest) returns (result: CompositionResult)
    ensures Composed(factories, request, result)
  {
    hide Blocked, Provides, SomeCreationFails, Unmet, HasCycle, OnCycle, Sorted, NamedIn, FailureIsReal, CyclesAreReal;
    hide Rearranged;
    var pending, unresolved := ResolveRequests(factories, request.requiredModules);
    var blocked, versionFailures := CheckVersions(pending, request.constraints);
    var manifests, modules, selected, notCreated := CreateSelected(pending, request.constraints, blocked);
    var unmet := CheckDependencies(manifests, selected);
    ProvidedAreDistinct(pending, request.constraints, manifests, modules);
    var sortedManifests, sortedModules, failures, order := SortByDependency(manifests, modules, unmet);
    result := CompositionResult(sortedModules, sortedManifests, unresolved + notCreated, failures, versionFailures);
    SortedProvides(pending, request.constraints, manifests, modules, sortedManifests, sortedModules, order);
    FailuresOfSorted(manifests, sortedManifests, unmet, failures);
  }

  lemma ProvidedAreDistinct(pending: seq<Pending>, constraints: seq<VersionConstraint>, manifests: seq<ModuleManifest>,
                            modules: seq<CreatedModule>)
    requires Provides(pending, constraints, |pending|, manifests, modules)
    ensures |manifests| == |modules| && DistinctIds(manifests)
  {
  }

  lemma SortedProvides(pending: seq<Pending>, constraints: seq<VersionConstraint>, manifests: seq<ModuleManifest>,
                       modules: seq<CreatedModule>,
                       sortedManifests: seq<ModuleManifest>, sortedModules: seq<CreatedModule>, order: seq<nat>)
    requires Provides(pending, constraints, |pending|, manifests, modules)
    requires |manifests| == |modules| && Rearranged(manifests, modules, sortedManifests, sortedModules, order)
    ensures Provides(pending, constraints, |pending|, sortedManifests, sortedModules)
    ensures forall m :: m in sortedManifests <==> m in manifests
    ensures HasCycle(sortedManifests) <==> HasCycle(manifests)
  {
    hide Chosen, HasCycle, FromChosen;
    RearrangedSame(manifests, modules, sortedManifests, sortedModules, order);
    forall i | 0 <= i < |sortedModules|
      ensures FromChosen(pending, constraints, |pending|, sortedManifests[i], sortedModules[i]) {
      assert FromChosen(pending, constraints, |pending|, manifests[order[i]], modules[order[i]]);
    }
  }

  lemma SameNames(a: seq<ModuleManifest>, b: seq<ModuleManifest>)
    requires forall m :: m in a ==> m in b
    ensures forall id :: NamedIn(a, id) ==> NamedIn(b, id)
  {
    forall id | NamedIn(a, id) ensures NamedIn(b, id) {
      var i :| 0 <= i < |a| && a[i].moduleId == id;
      assert a[i] in b;
      var j :| 0 <= j < |b| && b[j] == a[i];
    }
  }

  lemma SameUnmet(a: seq<ModuleManifest>, b: seq<ModuleManifest>, f: DependencyFailure)
    requires forall m :: m in a <==> m in b
    ensures Unmet(a, f) <==> Unmet(b, f)
  {
    hide NamedIn;
    SameNames(a, b);
    SameNames(b, a);
  }

  lemma FailuresOfSorted(manifests: seq<ModuleManifest>, sorted: seq<ModuleManifest>, unmet: seq<DependencyFailure>,
                         failures: seq<DependencyFailure>)
    requires forall m :: m in sorted <==> m in manifests
    requires forall f :: f in unmet <==> Unmet(manifests, f)
    requires unmet <= failures && CyclesAreReal(manifests, failures, |unmet|)
    ensures forall f :: f in failures && f.Requires? <==> Unmet(sorted, f)
    ensures forall f :: f in failures && f.Cyclic? ==>
              exists m :: m in sorted && m.moduleId == f.moduleId && OnCycle(sorted, m)
    ensures (exists f :: f in failures && f.Cyclic?) <==> failures != unmet
  {
    hide NamedIn, OnCycle;
    forall f ensures f in failures && f.Requires? <==> Unmet(sorted, f) {
      SameUnmet(manifests, sorted, f);
      if f in failures && f.Requires? {
        var k :| 0 <= k < |failures| && failures[k] == f;
        assert k < |unmet| && unmet[k] == f;
      }
    }
    forall f | f in failures && f.Cyclic?
      ensures exists m :: m in sorted && m.moduleId == f.moduleId && OnCycle(sorted, m) {
      var k :| 0 <= k < |failures| && failures[k] == f;
      assert k < |unmet| ==> f in unmet;
      var m :| m in manifests && m.moduleId == f.moduleId && OnCycle(manifests, m);
      SameCycles(manifests, sorted);
    }
    if failures != unmet {
      assert failures[|unmet|] in failures && failures[|unmet|].Cyclic?;
    }
  }

  // ----- what an ok result means

  lemma {:induction false} ResolvedIsPending(factories: seq<ModuleFactory>, required: seq<string>, r: string)
    requires r in required && Resolves(factories, r)
    ensures Pending(r, FindFactory(factories, r).value) in PendingOf(factories, required)
  {
    if required[|required| - 1] != r {
      ResolvedIsPending(factories, required[..|required| - 1], r);
    }
  }

  lemma {:induction false} SomeSelectionIsChosen(pending: seq<Pending>, constraints: seq<VersionConstraint>, k: nat)
    returns (j: nat)
    requires k < |pending| && !Blocked(pending, constraints, pending[k].Id())
    requires !SomeCreationFails(pending, constraints, |pending|, pending[k].Id())
    ensures j < |pending| && pending[j].Id() == pending[k].Id() && Chosen(pending, constraints, j)
  {
    hide Blocked;
    j := k;
    if !Untaken(pending, k) {
      var i :| 0 <= i < k && pending[i].Id() == pending[k].Id() && pending[i].factory.creates;
      j := SomeSelectionIsChosen(pending, constraints, i);
    } else {
      assert !CreationFails(pending, constraints, k);
    }
  }

  /** Ok exactly when every request resolves, meets its version constraints and can be created, every
      dependency is selected and none is circular; every requested module is then there, in dependency order. */
  lemma OkExactly(factories: seq<ModuleFactory>, request: CompositionRequest, result: CompositionResult)
    requires Composed(factories, request, result)
    ensures result.Ok() <==>
              && (forall r :: r in request.requiredModules ==> Resolves(factories, r))
              && (forall id :: !Blocked(PendingOf(factories, request.requiredModules), request.constraints, id))
              && AllCreated(PendingOf(factories, request.requiredModules), request.constraints)
              && (forall f :: !Unmet(result.manifests, f))
              && !HasCycle(result.manifests)
    ensures result.Ok() ==> Sorted(result.manifests)
    ensures result.Ok() ==> forall r :: r in request.requiredModules ==>
              Resolves(factories, r) && NamedIn(result.manifests, FindFactory(factories, r).value.manifest.moduleId)
  {
    hide Provides, Blocked, AllCreated, Unmet, HasCycle, OnCycle, Sorted, NamedIn, FailureIsReal, PendingOf;
    NothingMissing(factories, request, result);
    NoDependencyFailures(factories, request, result);
    if result.Ok() {
      forall r | r in request.requiredModules
        ensures Resolves(factories, r) && NamedIn(result.manifests, FindFactory(factories, r).value.manifest.moduleId)
      {
        RequestIsServed(factories, request, result, r);
      }
    }
  }

  lemma NoDependencyFailures(factories: seq<ModuleFactory>, request: CompositionRequest, result: CompositionResult)
    requires Composed(factories, request, result)
    ensures result.dependencyFailures == []
            <==> (forall f :: !Unmet(result.manifests, f)) && !HasCycle(result.manifests)
  {
    hide Provides, Blocked, SomeCreationFails, Unmet, HasCycle, OnCycle, Sorted, FailureIsReal, PendingOf, Resolves;
    if result.dependencyFailures != [] {
      assert result.dependencyFailures[0] in result.dependencyFailures;
    } else {
      forall f ensures !Unmet(result.manifests, f) {
        assert f !in result.dependencyFailures;
      }
    }
  }

  ghost predicate AllCreated(pending: seq<Pending>, constraints: seq<VersionConstraint>) {
    forall id :: !SomeCreationFails(pending, constraints, |pending|, id)
  }

  lemma NothingMissing(factories: seq<ModuleFactory>, request: CompositionRequest, result: CompositionResult)
    requires Composed(factories, request, result)
    ensures result.missingModules == [] <==>
              && (forall r :: r in request.requiredModules ==> Resolves(factories, r))
              && AllCreated(PendingOf(factories, request.requiredModules), request.constraints)
  {
    hide Provides, Blocked, SomeCreationFails, Unmet, HasCycle, OnCycle, Sorted, FailureIsReal, PendingOf, Resolves;
    if result.missingModules != [] {
      assert result.missingModules[0] in result.missingModules;
    } else {
      assert forall r :: r !in result.missingModules;
    }
  }

  lemma RequestIsServed(factories: seq<ModuleFactory>, request: CompositionRequest, result: CompositionResult,
                        r: string)
    requires Composed(factories, request, result) && r in request.requiredModules
    requires result.missingModules == [] && result.versionFailures == []
    ensures Resolves(factories, r) && NamedIn(result.manifests, FindFactory(factories, r).value.manifest.moduleId)
  {
    hide Blocked, SomeCreationFails, Unmet, HasCycle, OnCycle, Sorted, FailureIsReal, PendingOf, DistinctIds;
    hide FromChosen;
    assert r !in result.missingModules;
    var pending, selection := PendingOf(factories, request.requiredModules),
      Pending(r, FindFactory(factories, r).value);
    ResolvedIsPending(factories, request.requiredModules, r);
    var k :| 0 <= k < |pending| && pending[k] == selection;
    assert selection.Id() !in result.missingModules;
    var j := SomeSelectionIsChosen(pending, request.constraints, k);
    assert pending[j].factory.manifest in result.manifests;
    var i :| 0 <= i < |result.manifests| && result.manifests[i] == pending[j].factory.manifest;
  }
}
