/** What a composition gives its caller, told from the factories, the requests and the constraints alone. */
module CompositionLaws {
  import opened ProtocolTypes
  import opened ModuleIngress
  import opened ModuleComposer

  // ----- versions

  lemma InRangeByRank(v: ModuleVersion, least: ModuleVersion, most: ModuleVersion)
    ensures v.InRange(least, most) <==> Rank(least) <= Rank(v) <= Rank(most)
  {
    AtMostByRank(least, v);
    AtMostByRank(v, most);
  }

  predicate Within(v: ModuleVersion, c: VersionConstraint) {
    Rank(c.least) <= Rank(v) <= Rank(c.most)
  }

  // ----- what is offered

  /** Factory `i` is the first that supports the request. */
  predicate FirstSupporting(factories: seq<ModuleFactory>, requested: string, f: ModuleFactory, i: nat) {
    && i < |factories| && factories[i] == f && requested in f.supported
    && forall j :: 0 <= j < i ==> requested !in factories[j].supported
  }

  ghost predicate Supports(factories: seq<ModuleFactory>, requested: string, f: ModuleFactory) {
    exists i: nat :: FirstSupporting(factories, requested, f, i)
  }

  /** The factory that answers a request: the first that supports it, if its module has an id. */
  ghost predicate Offers(factories: seq<ModuleFactory>, requested: string, f: ModuleFactory) {
    f.manifest.moduleId != "" && Supports(factories, requested, f)
  }

  lemma {:induction false} FindsFirst(factories: seq<ModuleFactory>, requested: string, f: ModuleFactory)
    ensures FindFactory(factories, requested) == Some(f) <==> Supports(factories, requested, f)
  {
    if factories != [] {
      FindsFirst(factories[1..], requested, f);
      if requested in factories[0].supported {
        OnlyTheFirst(factories, requested, f);
      } else {
        NotTheFirst(factories, requested, f);
      }
    }
  }

  lemma OnlyTheFirst(factories: seq<ModuleFactory>, requested: string, f: ModuleFactory)
    requires factories != [] && requested in factories[0].supported
    ensures Supports(factories, requested, f) <==> f == factories[0]
  {
    if f == factories[0] {
      assert FirstSupporting(factories, requested, f, 0);
    }
  }

  lemma NotTheFirst(factories: seq<ModuleFactory>, requested: string, f: ModuleFactory)
    requires factories != [] && requested !in factories[0].supported
    ensures Supports(factories, requested, f) <==> Supports(factories[1..], requested, f)
  {
    var rest := factories[1..];
    if Supports(factories, requested, f) {
      var i: nat :| FirstSupporting(factories, requested, f, i);
      assert forall j :: 0 <= j < i - 1 ==> rest[j] == factories[j + 1];
      assert FirstSupporting(rest, requested, f, i - 1);
    }
    if Supports(rest, requested, f) {
      var i: nat :| FirstSupporting(rest, requested, f, i);
      assert forall j :: 0 < j < i + 1 ==> factories[j] == rest[j - 1];
      assert FirstSupporting(factories, requested, f, i + 1);
    }
  }

  lemma ResolvesExactly(factories: seq<ModuleFactory>, requested: string, f: ModuleFactory)
    ensures Offers(factories, requested, f)
       <==> Resolves(factories, requested) && FindFactory(factories, requested) == Some(f)
  {
    hide Supports, FindFactory;
    FindsFirst(factories, requested, f);
  }

  /** The pending selections are the requests that are offered something, in order. */
  lemma {:induction false} PendingExactly(factories: seq<ModuleFactory>, required: seq<string>, p: Pending)
    ensures p in PendingOf(factories, required)
            <==> p.requested in required && Offers(factories, p.requested, p.factory)
  {
    hide Offers, Resolves, FindFactory;
    ResolvesExactly(factories, p.requested, p.factory);
    if required != [] {
      var init, r := required[..|required| - 1], required[|required| - 1];
      assert required == init + [r];
      PendingExactly(factories, init, p);
      OfferOf(factories, r);
      var last := if Resolves(factories, r) then [Pending(r, FindFactory(factories, r).value)] else [];
      assert PendingOf(factories, required) == PendingOf(factories, init) + last;
    }
  }

  // ----- versions of a composition

  /** A constraint speaks of a request by the id requested or by the id of the module that answers it. */
  predicate SpeaksOf(c: VersionConstraint, requested: string, f: ModuleFactory) {
    c.moduleId == requested || c.moduleId == f.manifest.moduleId
  }

  ghost predicate Breaks(factories: seq<ModuleFactory>, request: CompositionRequest, c: VersionConstraint,
                         requested: string, f: ModuleFactory) {
    && requested in request.requiredModules && Offers(factories, requested, f)
    && c in request.constraints && SpeaksOf(c, requested, f) && !Within(f.manifest.version, c)
  }

  ghost predicate ModuleBreaks(factories: seq<ModuleFactory>, request: CompositionRequest, id: string) {
    exists c, r, f :: Breaks(factories, request, c, r, f) && f.manifest.moduleId == id
  }

  lemma ViolatesExactly(p: Pending, c: VersionConstraint)
    ensures p.Violates(c) <==> SpeaksOf(c, p.requested, p.factory) && !Within(p.factory.manifest.version, c)
  {
    InRangeByRank(p.factory.manifest.version, c.least, c.most);
  }

  /** A module is blocked exactly when some request for it is answered by a version outside the bounds of a constraint
      that speaks of that request. */
  lemma BlockedExactly(factories: seq<ModuleFactory>, request: CompositionRequest, id: string)
    ensures Blocked(PendingOf(factories, request.requiredModules), request.constraints, id)
       <==> ModuleBreaks(factories, request, id)
  {
    hide Offers, SpeaksOf, Within, PendingOf;
    var pending := PendingOf(factories, request.requiredModules);
    if Blocked(pending, request.constraints, id) {
      var k, c :| 0 <= k < |pending| && pending[k].Id() == id && c in request.constraints && pending[k].Violates(c);
      PendingExactly(factories, request.requiredModules, pending[k]);
      ViolatesExactly(pending[k], c);
      assert Breaks(factories, request, c, pending[k].requested, pending[k].factory);
    }
    if ModuleBreaks(factories, request, id) {
      var c, r, f :| Breaks(factories, request, c, r, f) && f.manifest.moduleId == id;
      PendingExactly(factories, request.requiredModules, Pending(r, f));
      ViolatesExactly(Pending(r, f), c);
      var k :| 0 <= k < |pending| && pending[k] == Pending(r, f);
      assert pending[k].Id() == id && pending[k].Violates(c);
    }
  }

  /** Every version failure listed is of a constraint that speaks of a request for the failing module, answered by a
      version outside its bounds; and none is listed exactly when every request is answered within the bounds of every
      constraint that speaks of it. */
  lemma VersionFailuresExactly(factories: seq<ModuleFactory>, request: CompositionRequest, result: CompositionResult)
    requires Composed(factories, request, result)
    ensures forall v :: v in result.versionFailures ==>
              exists r, f :: Breaks(factories, request, v.constraint, r, f) && f.manifest.moduleId == v.moduleId
    ensures result.versionFailures == [] <==> NothingBroken(factories, request)
  {
    hide Provides, SomeCreationFails, Unmet, HasCycle, OnCycle, Sorted, Offers, SpeaksOf, Within, PendingOf, Resolves;
    var pending := PendingOf(factories, request.requiredModules);
    forall v | v in result.versionFailures
      ensures exists r, f :: Breaks(factories, request, v.constraint, r, f) && f.manifest.moduleId == v.moduleId
    {
      var k :| 0 <= k < |pending| && FailsFirst(pending, request.constraints, v, k);
      PendingExactly(factories, request.requiredModules, pending[k]);
      ViolatesExactly(pending[k], v.constraint);
      assert Breaks(factories, request, v.constraint, pending[k].requested, pending[k].factory);
    }
    NoFailureExactly(factories, request);
    assert NoneBlocked(pending, request.constraints) <==> result.versionFailures == [];
  }

  ghost predicate NoneBlocked(pending: seq<Pending>, constraints: seq<VersionConstraint>) {
    forall id :: !Blocked(pending, constraints, id)
  }

  ghost predicate NothingBroken(factories: seq<ModuleFactory>, request: CompositionRequest) {
    forall c, r, f :: !Breaks(factories, request, c, r, f)
  }

  lemma NoFailureExactly(factories: seq<ModuleFactory>, request: CompositionRequest)
    ensures NoneBlocked(PendingOf(factories, request.requiredModules), request.constraints)
       <==> NothingBroken(factories, request)
  {
    hide Blocked, Breaks, PendingOf;
    var pending := PendingOf(factories, request.requiredModules);
    if NoneBlocked(pending, request.constraints) {
      forall c, r, f ensures !Breaks(factories, request, c, r, f) {
        BlockedExactly(factories, request, f.manifest.moduleId);
        assert !Blocked(pending, request.constraints, f.manifest.moduleId);
      }
    }
    if NothingBroken(factories, request) {
      forall id ensures !Blocked(pending, request.constraints, id) {
        BlockedExactly(factories, request, id);
      }
    }
  }

  // ----- constraints that speak of nothing requested

  ghost predicate Relevant(factories: seq<ModuleFactory>, required: seq<string>, c: VersionConstraint) {
    exists r, f :: r in required && Offers(factories, r, f) && SpeaksOf(c, r, f)
  }

  /** Only the constraints that speak of a request matter: any others can be dropped, or added, without changing what
      the composition may be. */
  lemma OnlyRelevantConstraintsMatter(factories: seq<ModuleFactory>, request: CompositionRequest,
                                      constraints: seq<VersionConstraint>, result: CompositionResult)
    requires forall c :: Relevant(factories, request.requiredModules, c) ==>
               (c in request.constraints <==> c in constraints)
    ensures Composed(factories, request, result) <==> Composed(factories, request.(constraints := constraints), result)
  {
    var pending := PendingOf(factories, request.requiredModules);
    forall k | 0 <= k < |pending| ensures SameVerdicts(pending[k], request.constraints, constraints) {
      hide PendingOf, Relevant, SpeaksOf, Offers;
      PendingExactly(factories, request.requiredModules, pending[k]);
      forall c | pending[k].Violates(c) ensures c in request.constraints <==> c in constraints {
        ViolatesExactly(pending[k], c);
        RelevantBy(factories, request.requiredModules, c, pending[k]);
      }
    }
    hide PendingOf, Resolves, Provides, SomeCreationFails, FailureIsReal, Blocked, SameVerdicts, Unmet, OnCycle;
    hide HasCycle, Sorted;
    SameComposition(pending, request.constraints, constraints, result);
  }

  lemma SameComposition(pending: seq<Pending>, a: seq<VersionConstraint>, b: seq<VersionConstraint>,
                        result: CompositionResult)
    requires forall k :: 0 <= k < |pending| ==> SameVerdicts(pending[k], a, b)
    ensures forall id :: Blocked(pending, a, id) <==> Blocked(pending, b, id)
    ensures Provides(pending, a, |pending|, result.manifests, result.modules)
       <==> Provides(pending, b, |pending|, result.manifests, result.modules)
    ensures forall id :: SomeCreationFails(pending, a, |pending|, id) <==> SomeCreationFails(pending, b, |pending|, id)
    ensures forall f :: FailureIsReal(pending, a, f) <==> FailureIsReal(pending, b, f)
  {
    forall k | 0 <= k <= |pending| ensures forall id :: Blocked(pending[..k], a, id) <==> Blocked(pending[..k], b, id) {
      hide SameVerdicts;
      SameBlocks(pending[..k], a, b);
    }
    assert pending[..|pending|] == pending;
    hide Blocked, SameVerdicts;
    forall k | 0 <= k < |pending| ensures Chosen(pending, a, k) <==> Chosen(pending, b, k) {
    }
    SameProvision(pending, a, b, result.manifests, result.modules);
    forall k, f | 0 <= k < |pending| ensures FailsFirst(pending, a, f, k) <==> FailsFirst(pending, b, f, k) {
      SameViolations(pending[k], a, b, f);
    }
  }

  lemma SameBlocks(pending: seq<Pending>, a: seq<VersionConstraint>, b: seq<VersionConstraint>)
    requires forall k :: 0 <= k < |pending| ==> SameVerdicts(pending[k], a, b)
    ensures forall id :: Blocked(pending, a, id) <==> Blocked(pending, b, id)
  {
    forall id ensures Blocked(pending, a, id) <==> Blocked(pending, b, id) {
      if Blocked(pending, a, id) {
        var k, c :| 0 <= k < |pending| && pending[k].Id() == id && c in a && pending[k].Violates(c);
        assert c in b;
      }
      if Blocked(pending, b, id) {
        var k, c :| 0 <= k < |pending| && pending[k].Id() == id && c in b && pending[k].Violates(c);
        assert c in a;
      }
    }
  }

  lemma SameProvision(pending: seq<Pending>, a: seq<VersionConstraint>, b: seq<VersionConstraint>,
                      manifests: seq<ModuleManifest>, modules: seq<CreatedModule>)
    requires forall k :: 0 <= k < |pending| ==> (Chosen(pending, a, k) <==> Chosen(pending, b, k))
    ensures Provides(pending, a, |pending|, manifests, modules) <==> Provides(pending, b, |pending|, manifests, modules)
  {
    hide Chosen, DistinctIds;
    forall m, made ensures FromChosen(pending, a, |pending|, m, made) <==> FromChosen(pending, b, |pending|, m, made) {
    }
  }

  lemma SameViolations(p: Pending, a: seq<VersionConstraint>, b: seq<VersionConstraint>, f: VersionFailure)
    requires SameVerdicts(p, a, b)
    ensures f in Violations(p, a) <==> f in Violations(p, b)
  {
  }

  lemma RelevantBy(factories: seq<ModuleFactory>, required: seq<string>, c: VersionConstraint, p: Pending)
    requires p.requested in required && Offers(factories, p.requested, p.factory) && SpeaksOf(c, p.requested, p.factory)
    ensures Relevant(factories, required, c)
  {
  }

  ghost predicate SameVerdicts(p: Pending, a: seq<VersionConstraint>, b: seq<VersionConstraint>) {
    forall c :: c in a || c in b ==> p.Violates(c) ==> (c in a <==> c in b)
  }

  // ----- ok, in plain terms

  /** An ok composition, told from the request alone: every request is answered by some factory, by a version within
      the bounds of every constraint that speaks of the request, and a module of the answer's id is there. Every
      module there is the answer to a request, could be created, and stands behind all the modules it requires. */
  lemma OkInPlainTerms(factories: seq<ModuleFactory>, request: CompositionRequest, result: CompositionResult)
    requires Composed(factories, request, result) && result.Ok()
    ensures forall r :: r in request.requiredModules ==>
              exists f :: Offers(factories, r, f) && NamedIn(result.manifests, f.manifest.moduleId)
    ensures forall r, f, c ::
              r in request.requiredModules && Offers(factories, r, f) && c in request.constraints &&
              (c.moduleId == r || c.moduleId == f.manifest.moduleId) ==>
                Rank(c.least) <= Rank(f.manifest.version) <= Rank(c.most)
    ensures |result.modules| == |result.manifests|
    ensures forall i :: 0 <= i < |result.manifests| ==> result.modules[i].maker.manifest == result.manifests[i]
    ensures forall i :: 0 <= i < |result.manifests| ==> Answers(factories, request, result.modules[i].maker)
    ensures forall i, d :: 0 <= i < |result.manifests| && d in result.manifests[i].requiredModules ==>
              exists j :: 0 <= j < i && result.manifests[j].moduleId == d
  {
    hide Provides, SomeCreationFails, Unmet, HasCycle, OnCycle, Sorted, Blocked, FailureIsReal, NamedIn, Offers;
    hide PendingOf, Resolves;
    OkExactly(factories, request, result);
    VersionFailuresExactly(factories, request, result);
    forall r, f, c | r in request.requiredModules && Offers(factories, r, f) && c in request.constraints
      && (c.moduleId == r || c.moduleId == f.manifest.moduleId)
      ensures Rank(c.least) <= Rank(f.manifest.version) <= Rank(c.most)
    {
      assert !Breaks(factories, request, c, r, f);
    }
    forall r | r in request.requiredModules
      ensures exists f :: Offers(factories, r, f) && NamedIn(result.manifests, f.manifest.moduleId)
    {
      OfferOf(factories, r);
    }
    SameLengths(factories, request, result);
    forall i | 0 <= i < |result.manifests|
      ensures result.modules[i].maker.manifest == result.manifests[i]
              && Answers(factories, request, result.modules[i].maker)
    {
      ProvidedAnswers(factories, request, result, i);
    }
    RequirementsComeFirst(result);
  }

  lemma OfferOf(factories: seq<ModuleFactory>, r: string)
    ensures Resolves(factories, r) ==>
              FindFactory(factories, r).Some? && Offers(factories, r, FindFactory(factories, r).value)
  {
    hide Offers;
    if Resolves(factories, r) {
      ResolvesExactly(factories, r, FindFactory(factories, r).value);
    }
  }

  /** The factory answers some request and its module could be created. */
  ghost predicate Answers(factories: seq<ModuleFactory>, request: CompositionRequest, f: ModuleFactory) {
    f.creates && exists r :: r in request.requiredModules && Offers(factories, r, f)
  }

  lemma SameLengths(factories: seq<ModuleFactory>, request: CompositionRequest, result: CompositionResult)
    requires Composed(factories, request, result)
    ensures |result.modules| == |result.manifests|
  {
  }

  lemma ProvidedAnswers(factories: seq<ModuleFactory>, request: CompositionRequest, result: CompositionResult, i: nat)
    requires Composed(factories, request, result) && i < |result.manifests|
    ensures i < |result.modules| && Answers(factories, request, result.modules[i].maker)
    ensures result.modules[i].maker.manifest == result.manifests[i]
  {
    hide SomeCreationFails, Unmet, HasCycle, OnCycle, Sorted, Blocked, FailureIsReal, Offers, PendingOf, DistinctIds;
    hide Resolves;
    var pending := PendingOf(factories, request.requiredModules);
    assert FromChosen(pending, request.constraints, |pending|, result.manifests[i], result.modules[i]);
    var j :| 0 <= j < |pending| && Chosen(pending, request.constraints, j)
      && pending[j].factory == result.modules[i].maker;
    PendingExactly(factories, request.requiredModules, pending[j]);
  }

  lemma RequirementsComeFirst(result: CompositionResult)
    requires Sorted(result.manifests) && forall f :: !Unmet(result.manifests, f)
    ensures forall i, d :: 0 <= i < |result.manifests| && d in result.manifests[i].requiredModules ==>
              exists j :: 0 <= j < i && result.manifests[j].moduleId == d
  {
    forall i, d | 0 <= i < |result.manifests| && d in result.manifests[i].requiredModules
      ensures exists j :: 0 <= j < i && result.manifests[j].moduleId == d
    {
      assert !Unmet(result.manifests, Requires(result.manifests[i].moduleId, d));
      assert result.manifests[i] in result.manifests;
      var j :| 0 <= j < |result.manifests| && result.manifests[j].moduleId == d;
      assert Depends(result.manifests[i], result.manifests[j]);
    }
  }

  // ----- ok, exactly

  /** Request `i` is the first that is answered with this module id. */
  ghost predicate FirstAnswer(factories: seq<ModuleFactory>, required: seq<string>, i: nat, f: ModuleFactory) {
    && i < |required| && Offers(factories, required[i], f)
    && forall j, g :: 0 <= j < i && Offers(factories, required[j], g) ==> g.manifest.moduleId != f.manifest.moduleId
  }

  ghost predicate IsFirstAnswer(factories: seq<ModuleFactory>, required: seq<string>, f: ModuleFactory) {
    exists i: nat :: FirstAnswer(factories, required, i, f)
  }

  ghost predicate AllAnswered(factories: seq<ModuleFactory>, required: seq<string>) {
    forall r :: r in required ==> exists f :: Offers(factories, r, f)
  }

  ghost predicate FirstsCanBeCreated(factories: seq<ModuleFactory>, required: seq<string>) {
    forall f :: IsFirstAnswer(factories, required, f) ==> f.creates
  }

  /** Whatever a module of the composition requires is the id of a module of the composition. */
  ghost predicate Closed(factories: seq<ModuleFactory>, required: seq<string>) {
    forall f, d :: IsFirstAnswer(factories, required, f) && d in f.manifest.requiredModules ==>
      exists g :: IsFirstAnswer(factories, required, g) && g.manifest.moduleId == d
  }

  /** The modules of the composition can be put on levels, each above all it requires. */
  ghost predicate Layered(factories: seq<ModuleFactory>, required: seq<string>, level: string -> int) {
    forall f, g ::
      (IsFirstAnswer(factories, required, f) && IsFirstAnswer(factories, required, g)
       && g.manifest.moduleId in f.manifest.requiredModules) ==>
        level(g.manifest.moduleId) < level(f.manifest.moduleId)
  }

  /** A composition is ok exactly when every request is answered, no constraint is broken, the first answer for each
      module can be created, the first answers require only each other, and that without a circle. */
  lemma OkExactlyInPlainTerms(factories: seq<ModuleFactory>, request: CompositionRequest, result: CompositionResult)
    requires Composed(factories, request, result)
    ensures result.Ok() <==>
              && AllAnswered(factories, request.requiredModules)
              && NothingBroken(factories, request)
              && FirstsCanBeCreated(factories, request.requiredModules)
              && Closed(factories, request.requiredModules)
              && exists level: string -> int :: Layered(factories, request.requiredModules, level)
  {
    hide Composed, OnCycle, Sorted, Blocked, FailureIsReal, Unmet, Offers, PendingOf, Resolves, NothingBroken, Closed;
    hide Layered, FirstsCanBeCreated, Breaks, HasCycle, AllAnswered, AllCreated, SomeCreationFails, Provides;
    hide FirstAnswer;
    OkExactly(factories, request, result);
    NoFailureExactly(factories, request);
    AnsweredExactly(factories, request.requiredModules);
    var pending := PendingOf(factories, request.requiredModules);
    if AllAnswered(factories, request.requiredModules) && NothingBroken(factories, request) {
      assert NoneBlocked(pending, request.constraints);
      CreatedExactly(factories, request);
      if AllCreated(pending, request.constraints) {
        ProvidedExactly(factories, request, result);
        SortedOrCyclic(factories, request, result);
        ClosedExactly(factories, request.requiredModules, result.manifests);
        LayeredExactly(factories, request.requiredModules, result);
      }
    }
  }

  lemma SortedOrCyclic(factories: seq<ModuleFactory>, request: CompositionRequest, result: CompositionResult)
    requires Composed(factories, request, result)
    ensures DistinctIds(result.manifests) && (HasCycle(result.manifests) || Sorted(result.manifests))
  {
  }

  lemma AnsweredExactly(factories: seq<ModuleFactory>, required: seq<string>)
    ensures AllAnswered(factories, required) <==> forall r :: r in required ==> Resolves(factories, r)
  {
    hide Offers, Resolves;
    forall r ensures (exists f :: Offers(factories, r, f)) <==> Resolves(factories, r) {
      OfferOf(factories, r);
      if f :| Offers(factories, r, f) {
        ResolvesExactly(factories, r, f);
      }
    }
  }

  lemma {:induction false} PendingInStep(factories: seq<ModuleFactory>, required: seq<string>)
    requires forall r :: r in required ==> Resolves(factories, r)
    ensures var pending := PendingOf(factories, required);
            && |pending| == |required|
            && forall i, f :: 0 <= i < |pending| ==>
                 (Offers(factories, required[i], f) <==> pending[i] == Pending(required[i], f))
  {
    hide Offers, Resolves, FindFactory;
    if required != [] {
      var init, r := required[..|required| - 1], required[|required| - 1];
      PendingInStep(factories, init);
      forall f ensures Offers(factories, r, f) <==> FindFactory(factories, r) == Some(f) {
        ResolvesExactly(factories, r, f);
      }
      assert Resolves(factories, r);
      OfferOf(factories, r);
    }
  }

  /** When every request is answered, the first answers are the pending selections that no earlier one names. */
  lemma FirstInPending(factories: seq<ModuleFactory>, required: seq<string>, i: nat, f: ModuleFactory)
    requires forall r :: r in required ==> Resolves(factories, r)
    ensures var pending := PendingOf(factories, required);
            FirstAnswer(factories, required, i, f) <==>
              i < |pending| && pending[i].factory == f && forall j :: 0 <= j < i ==> pending[j].Id() != pending[i].Id()
  {
    hide Offers, Resolves, PendingOf;
    var pending := PendingOf(factories, required);
    PendingInStep(factories, required);
    if i < |pending| {
      assert Offers(factories, required[i], f) <==> pending[i] == Pending(required[i], f);
      OfferOf(factories, required[i]);
      assert pending[i] == Pending(required[i], FindFactory(factories, required[i]).value);
      forall j | 0 <= j < i ensures Offers(factories, required[j], pending[j].factory) {
        OfferOf(factories, required[j]);
        assert pending[j] == Pending(required[j], FindFactory(factories, required[j]).value);
      }
    }
  }

  lemma FirstOfId(pending: seq<Pending>, k: nat) returns (i: nat)
    requires k < |pending|
    ensures i <= k && pending[i].Id() == pending[k].Id()
    ensures forall j :: 0 <= j < i ==> pending[j].Id() != pending[k].Id()
  {
    i := 0;
    while pending[i].Id() != pending[k].Id()
      invariant i <= k && forall j :: 0 <= j < i ==> pending[j].Id() != pending[k].Id()
      decreases k - i
    {
      i := i + 1;
    }
  }

  lemma CreatedExactly(factories: seq<ModuleFactory>, request: CompositionRequest)
    requires forall r :: r in request.requiredModules ==> Resolves(factories, r)
    requires NoneBlocked(PendingOf(factories, request.requiredModules), request.constraints)
    ensures AllCreated(PendingOf(factories, request.requiredModules), request.constraints)
       <==> FirstsCanBeCreated(factories, request.requiredModules)
  {
    hide FirstAnswer, Resolves, PendingOf, Blocked, Offers;
    var required, pending := request.requiredModules, PendingOf(factories, request.requiredModules);
    if AllCreated(pending, request.constraints) {
      forall f | IsFirstAnswer(factories, required, f) ensures f.creates {
        var i: nat :| FirstAnswer(factories, required, i, f);
        FirstInPending(factories, required, i, f);
        assert !SomeCreationFails(pending, request.constraints, |pending|, pending[i].Id());
        assert !CreationFails(pending, request.constraints, i);
      }
    }
    if FirstsCanBeCreated(factories, required) {
      forall k | 0 <= k < |pending| ensures !CreationFails(pending, request.constraints, k) {
        var i := FirstOfId(pending, k);
        FirstInPending(factories, required, i, pending[i].factory);
        assert IsFirstAnswer(factories, required, pending[i].factory);
      }
    }
  }

  /** The modules of a composition without failures are the first answers. */
  lemma ProvidedExactly(factories: seq<ModuleFactory>, request: CompositionRequest, result: CompositionResult)
    requires Composed(factories, request, result)
    requires forall r :: r in request.requiredModules ==> Resolves(factories, r)
    requires NoneBlocked(PendingOf(factories, request.requiredModules), request.constraints)
    requires AllCreated(PendingOf(factories, request.requiredModules), request.constraints)
    ensures forall m :: m in result.manifests <==>
              exists f :: IsFirstAnswer(factories, request.requiredModules, f) && f.manifest == m
  {
    hide FirstAnswer, Resolves, PendingOf, Blocked, Offers, Unmet, HasCycle, OnCycle, Sorted, FailureIsReal;
    hide DistinctIds;
    var required, pending := request.requiredModules, PendingOf(factories, request.requiredModules);
    CreatedExactly(factories, request);
    forall m | m in result.manifests
      ensures exists f :: IsFirstAnswer(factories, required, f) && f.manifest == m
    {
      var i :| 0 <= i < |result.manifests| && result.manifests[i] == m;
      assert FromChosen(pending, request.constraints, |pending|, m, result.modules[i]);
      var k :| 0 <= k < |pending| && Chosen(pending, request.constraints, k) && pending[k].factory.manifest == m;
      var first := FirstOfId(pending, k);
      FirstInPending(factories, required, first, pending[first].factory);
      assert IsFirstAnswer(factories, required, pending[first].factory);
      assert first == k;
    }
    forall f | IsFirstAnswer(factories, required, f) ensures f.manifest in result.manifests {
      var i: nat :| FirstAnswer(factories, required, i, f);
      FirstInPending(factories, required, i, f);
      assert Chosen(pending, request.constraints, i);
    }
  }

  lemma ClosedExactly(factories: seq<ModuleFactory>, required: seq<string>, manifests: seq<ModuleManifest>)
    requires forall m :: m in manifests <==> exists f :: IsFirstAnswer(factories, required, f) && f.manifest == m
    ensures Closed(factories, required) <==> forall f :: !Unmet(manifests, f)
  {
    hide IsFirstAnswer;
    if Closed(factories, required) {
      forall failure ensures !Unmet(manifests, failure) {
        if failure.Requires? && exists m :: m in manifests && failure.dependency in m.requiredModules {
          var m :| m in manifests && failure.dependency in m.requiredModules;
          var f :| IsFirstAnswer(factories, required, f) && f.manifest == m;
          var g :| IsFirstAnswer(factories, required, g) && g.manifest.moduleId == failure.dependency;
          assert g.manifest in manifests;
          var i :| 0 <= i < |manifests| && manifests[i] == g.manifest;
          assert NamedIn(manifests, failure.dependency);
        }
      }
    }
    if forall f :: !Unmet(manifests, f) {
      forall f, d | IsFirstAnswer(factories, required, f) && d in f.manifest.requiredModules
        ensures exists g :: IsFirstAnswer(factories, required, g) && g.manifest.moduleId == d
      {
        assert f.manifest in manifests;
        assert !Unmet(manifests, Requires(f.manifest.moduleId, d));
        var j :| 0 <= j < |manifests| && manifests[j].moduleId == d;
        assert manifests[j] in manifests;
        var g :| IsFirstAnswer(factories, required, g) && g.manifest == manifests[j];
      }
    }
  }

  /** Levels exist exactly when the modules come sorted: without a cycle the position is a level, and along a cycle
      levels would sink forever. */
  lemma LayeredExactly(factories: seq<ModuleFactory>, required: seq<string>, result: CompositionResult)
    requires forall m :: m in result.manifests <==> exists f :: IsFirstAnswer(factories, required, f) && f.manifest == m
    requires HasCycle(result.manifests) || Sorted(result.manifests)
    requires DistinctIds(result.manifests)
    ensures !HasCycle(result.manifests) <==> exists level: string -> int :: Layered(factories, required, level)
  {
    hide IsFirstAnswer;
    var manifests := result.manifests;
    if !HasCycle(manifests) {
      SortedIsLayered(factories, required, manifests);
    }
    if HasCycle(manifests) && exists level: string -> int :: Layered(factories, required, level) {
      var level: string -> int :| Layered(factories, required, level);
      var m :| OnCycle(manifests, m);
      var walk :| IsCycle(manifests, walk) && walk[0] == m;
      WalkSinks(factories, required, manifests, level, walk);
      assert false;
    }
  }

  lemma SortedIsLayered(factories: seq<ModuleFactory>, required: seq<string>, manifests: seq<ModuleManifest>)
    requires forall m :: m in manifests <==> exists f :: IsFirstAnswer(factories, required, f) && f.manifest == m
    requires Sorted(manifests) && DistinctIds(manifests)
    ensures exists level: string -> int :: Layered(factories, required, level)
  {
    hide IsFirstAnswer;
    var level := (id: string) => Position(manifests, id);
    forall f, g | IsFirstAnswer(factories, required, f) && IsFirstAnswer(factories, required, g)
      && g.manifest.moduleId in f.manifest.requiredModules
      ensures level(g.manifest.moduleId) < level(f.manifest.moduleId)
    {
      assert f.manifest in manifests && g.manifest in manifests;
      var i :| 0 <= i < |manifests| && manifests[i] == f.manifest;
      var j :| 0 <= j < |manifests| && manifests[j] == g.manifest;
      assert Depends(manifests[i], manifests[j]);
      PositionOf(manifests, i);
      PositionOf(manifests, j);
    }
    assert Layered(factories, required, level);
  }

  function Position(manifests: seq<ModuleManifest>, id: string): int {
    if manifests == [] then 0
    else if manifests[|manifests| - 1].moduleId == id then |manifests| - 1
    else Position(manifests[..|manifests| - 1], id)
  }

  lemma {:induction false} PositionOf(manifests: seq<ModuleManifest>, i: nat)
    requires i < |manifests| && DistinctIds(manifests)
    ensures Position(manifests, manifests[i].moduleId) == i
  {
    if i < |manifests| - 1 {
      PositionOf(manifests[..|manifests| - 1], i);
    }
  }

  lemma {:induction false} WalkSinks(factories: seq<ModuleFactory>, required: seq<string>,
                                     manifests: seq<ModuleManifest>, level: string -> int, walk: seq<ModuleManifest>)
    requires forall m :: m in manifests <==> exists f :: IsFirstAnswer(factories, required, f) && f.manifest == m
    requires Layered(factories, required, level)
    requires |walk| >= 2 && IsWalk(walk) && forall m :: m in walk ==> m in manifests
    ensures level(walk[|walk| - 1].moduleId) < level(walk[0].moduleId)
  {
    hide IsFirstAnswer;
    var m, n := walk[|walk| - 2], walk[|walk| - 1];
    assert Depends(m, n) && m in manifests && n in manifests;
    var f :| IsFirstAnswer(factories, required, f) && f.manifest == m;
    var g :| IsFirstAnswer(factories, required, g) && g.manifest == n;
    if |walk| > 2 {
      WalkSinks(factories, required, manifests, level, walk[..|walk| - 1]);
    }
  }
}
