/** Drag sessions between two clipboard modules: what each side sends, what its sink is told, and when. */
module DragSession {
  import opened ProtocolTypes

  // ----- messages, events and state

  /** The identity of an offered bundle; the empty bundle has all zeros. */
  datatype BundleKey = BundleKey(bundleId: uint64, offerId: uint64, ownerEpoch: uint64)

  const NO_BUNDLE := BundleKey(0, 0, 0)

  datatype Message =
    | FormatList(bundle: BundleKey, fromDrag: bool, originSession: uint64)
    | DragStart(session: uint64, offer: BundleKey, action: uint16)
    | DragMove(session: uint64, action: uint16)
    | DragDrop(session: uint64, action: uint16)
    | DragCancel(session: uint64)

  /** What became of a delivered message: a stored list may still be refused by the native clipboard, and
      for drag messages the native sink may have been told and may have accepted. */
  datatype Outcome = Ignored | Stored | Withdrawn | SinkTold(ok: bool)

  /** A reset is a stop, a detach or a reconnect pause. */
  datatype PeerEvent = Sent(message: Message) | Received(message: Message, outcome: Outcome) | Reset

  datatype ClipboardPolicy = ClipboardPolicy(allowAnnounce: bool, allowReceive: bool, allowWriteLocal: bool,
                                             allowDrag: bool)

  datatype Dependencies = Dependencies(policy: ClipboardPolicy, sessionId: uint64, hasSink: bool, hasRegistry: bool,
                                       hasEndpoint: bool)

  datatype PeerState = PeerState(
    running: bool,
    localBundle: BundleKey,
    remoteBundle: BundleKey,
    activeLocal: uint64,
    activeRemote: uint64,
    log: seq<PeerEvent>)

  /** The environment's answers while a format list is announced. */
  datatype AnnounceAnswers = AnnounceAnswers(hasFormats: bool, formatsLeft: bool, stored: bool, sent: bool)

  /** The environment's answers while a message is handled. */
  datatype HandleAnswers = HandleAnswers(formatsLeft: bool, stored: bool, published: bool, sinkOk: bool)

  const ACTION_LINK: uint16 := 3

  predicate ValidAction(action: uint16) {
    action <= ACTION_LINK
  }

  predicate StartMatches(bundle: BundleKey, start: Message)
    requires start.DragStart?
  {
    start.session != 0 && bundle == start.offer
  }

  // ----- the sending half, as one step

  predicate MaySend(d: Dependencies, s: PeerState, m: Message) {
    && s.running && d.policy.allowAnnounce && d.policy.allowDrag
    && match m
       case DragStart(_, _, action) => StartMatches(s.localBundle, m) && ValidAction(action)
       case DragMove(session, action) => session != 0 && ValidAction(action) && s.activeLocal == session
       case DragDrop(session, action) => session != 0 && ValidAction(action) && s.activeLocal == session
       case DragCancel(session) => session != 0 && s.activeLocal == session
       case FormatList(_, _, _) => false
  }

  function AfterSend(s: PeerState, m: Message): PeerState {
    var active := match m case DragStart(session, _, _) => session case DragMove(_, _) => s.activeLocal case _ => 0;
    s.(activeLocal := active,
       localBundle := if m.FormatList? then m.bundle else s.localBundle,
       log := s.log + [Sent(m)])
  }

  function Sends(d: Dependencies, s: PeerState, m: Message, sent: bool): PeerState {
    if MaySend(d, s, m) && sent then AfterSend(s, m) else s
  }

  predicate MayAnnounce(d: Dependencies, s: PeerState, m: Message, answers: AnnounceAnswers)
    requires m.FormatList?
  {
    && s.running && d.policy.allowAnnounce && (m.fromDrag ==> d.policy.allowDrag)
    && answers.hasFormats && answers.formatsLeft && (d.hasRegistry ==> answers.stored)
  }

  /** An announced list carries the announcer's session unless it names another origin. */
  function Originated(d: Dependencies, m: Message): Message
    requires m.FormatList?
  {
    if m.originSession == 0 then m.(originSession := d.sessionId) else m
  }

  function Announces(d: Dependencies, s: PeerState, m: Message, answers: AnnounceAnswers): PeerState
    requires m.FormatList?
  {
    if MayAnnounce(d, s, m, answers) && answers.sent then AfterSend(s, Originated(d, m)) else s
  }

  // ----- the receiving half, as one step

  /** What the payload decoder requires of identities and actions. */
  predicate Decodes(m: Message) {
    match m
    case FormatList(bundle, _, _) => bundle.bundleId != 0 && bundle.offerId != 0
    case DragStart(session, offer, action) =>
      session != 0 && offer.bundleId != 0 && offer.offerId != 0 && offer.ownerEpoch != 0 && ValidAction(action)
    case DragMove(session, action) => session != 0 && ValidAction(action)
    case DragDrop(session, action) => session != 0 && ValidAction(action)
    case DragCancel(session) => session != 0
  }

  predicate MayWrite(policy: ClipboardPolicy) {
    policy.allowReceive && policy.allowDrag && policy.allowWriteLocal
  }

  function OutcomeOf(d: Dependencies, s: PeerState, m: Message, answers: HandleAnswers): Outcome {
    if !s.running || !Decodes(m) then Ignored
    else
      match m
      case FormatList(_, fromDrag, origin) =>
        if !d.policy.allowReceive || !d.policy.allowWriteLocal || (fromDrag && !d.policy.allowDrag) then Ignored
        else if origin == d.sessionId && origin != 0 then Ignored
        else if !answers.formatsLeft || (d.hasRegistry && !answers.stored) then Ignored
        else if d.hasEndpoint && !answers.published then Withdrawn else Stored
      case DragStart(_, _, _) =>
        if MayWrite(d.policy) && StartMatches(s.remoteBundle, m) && d.hasSink then SinkTold(answers.sinkOk) else Ignored
      case DragMove(session, _) =>
        if MayWrite(d.policy) && s.activeRemote == session && d.hasSink then SinkTold(answers.sinkOk) else Ignored
      case DragDrop(session, _) =>
        if MayWrite(d.policy) && s.activeRemote == session && d.hasSink then SinkTold(answers.sinkOk) else Ignored
      case DragCancel(session) =>
        if d.policy.allowDrag && s.activeRemote == session && d.hasSink then SinkTold(answers.sinkOk) else Ignored
  }

  function AfterReceive(s: PeerState, m: Message, outcome: Outcome): PeerState {
    var logged := s.(log := s.log + [Received(m, outcome)]);
    if m.FormatList? && (outcome == Stored || outcome == Withdrawn) then
      logged.(activeRemote := 0, remoteBundle := if outcome == Stored then m.bundle else NO_BUNDLE)
    else if m.DragStart? && outcome == SinkTold(true) then logged.(activeRemote := m.session)
    else if (m.DragDrop? || m.DragCancel?) && outcome == SinkTold(true) then logged.(activeRemote := 0)
    else logged
  }

  function Receives(d: Dependencies, s: PeerState, m: Message, answers: HandleAnswers): PeerState {
    AfterReceive(s, m, OutcomeOf(d, s, m, answers))
  }

  function Resets(s: PeerState, running: bool): PeerState {
    s.(running := running, activeLocal := 0, activeRemote := 0, log := s.log + [Reset])
  }

  // ----- the module

  class ClipboardPeer {
    const dependencies: Dependencies
    var running: bool
    var localBundle: BundleKey
    var remoteBundle: BundleKey
    var activeLocalDragSessionId: uint64
    var activeRemoteDragSessionId: uint64
    ghost var log: seq<PeerEvent>

    ghost function State(): PeerState
      reads this
    {
      PeerState(running, localBundle, remoteBundle, activeLocalDragSessionId, activeRemoteDragSessionId, log)
    }

    constructor (dependencies: Dependencies)
      ensures this.dependencies == dependencies && State() == PeerState(false, NO_BUNDLE, NO_BUNDLE, 0, 0, [])
    {
      this.dependencies := dependencies;
      running, localBundle, remoteBundle := false, NO_BUNDLE, NO_BUNDLE;
      activeLocalDragSessionId, activeRemoteDragSessionId, log := 0, 0, [];
    }

    method Start(networked: bool) returns (ok: bool)
      modifies this
      ensures ok == networked && State() == old(State()).(running := networked)
    {
      running := networked;
      return networked;
    }

    /** stop, detach, and pauseForReconnect when it concerns the clipboard's channels. */
    method ResetSessions(stopping: bool)
      modifies this
      ensures State() == Resets(old(State()), old(running) && !stopping)
    {
      activeLocalDragSessionId, activeRemoteDragSessionId := 0, 0;
      running := running && !stopping;
      log := log + [Reset];
    }

    method AnnounceLocalBundle(list: Message, answers: AnnounceAnswers) returns (ok: bool)
      requires list.FormatList?
      modifies this
      ensures ok <==> MayAnnounce(dependencies, old(State()), list, answers) && answers.sent
      ensures State() == Announces(dependencies, old(State()), list, answers)
    {
      var policy := dependencies.policy;
      if !running || !policy.allowAnnounce || (list.fromDrag && !policy.allowDrag) {
        return false;
      }
      var packet := list;
      if packet.originSession == 0 {
        packet := packet.(originSession := dependencies.sessionId);
      }
      if !answers.hasFormats || !answers.formatsLeft || (dependencies.hasRegistry && !answers.stored) || !answers.sent {
        return false;
      }
      localBundle := packet.bundle;
      activeLocalDragSessionId := 0;
      log := log + [Sent(packet)];
      return true;
    }

    method SendRemoteDragStart(start: Message, sent: bool) returns (ok: bool)
      requires start.DragStart?
      modifies this
      ensures ok <==> MaySend(dependencies, old(State()), start) && sent
      ensures State() == Sends(dependencies, old(State()), start, sent)
    {
      if !running || !dependencies.policy.allowAnnounce || !dependencies.policy.allowDrag {
        return false;
      }
      if !StartMatches(localBundle, start) || !ValidAction(start.action) {
        return false;
      }
      if sent {
        activeLocalDragSessionId := start.session;
        log := log + [Sent(start)];
        return true;
      }
      return false;
    }

    method SendRemoteDragMove(move: Message, sent: bool) returns (ok: bool)
      requires move.DragMove?
      modifies this
      ensures ok <==> MaySend(dependencies, old(State()), move) && sent
      ensures State() == Sends(dependencies, old(State()), move, sent)
    {
      if !running || !dependencies.policy.allowAnnounce || !dependencies.policy.allowDrag {
        return false;
      }
      if move.session == 0 || !ValidAction(move.action) || activeLocalDragSessionId != move.session || !sent {
        return false;
      }
      log := log + [Sent(move)];
      return true;
    }

    method SendRemoteDragDrop(drop: Message, sent: bool) returns (ok: bool)
      requires drop.DragDrop?
      modifies this
      ensures ok <==> MaySend(dependencies, old(State()), drop) && sent
      ensures State() == Sends(dependencies, old(State()), drop, sent)
    {
      if !running || !dependencies.policy.allowAnnounce || !dependencies.policy.allowDrag {
        return false;
      }
      if drop.session == 0 || !ValidAction(drop.action) || activeLocalDragSessionId != drop.session || !sent {
        return false;
      }
      activeLocalDragSessionId := 0;
      log := log + [Sent(drop)];
      return true;
    }

    method SendRemoteDragCancel(cancel: Message, sent: bool) returns (ok: bool)
      requires cancel.DragCancel?
      modifies this
      ensures ok <==> MaySend(dependencies, old(State()), cancel) && sent
      ensures State() == Sends(dependencies, old(State()), cancel, sent)
    {
      if !running || !dependencies.policy.allowAnnounce || !dependencies.policy.allowDrag {
        return false;
      }
      if cancel.session == 0 || activeLocalDragSessionId != cancel.session || !sent {
        return false;
      }
      activeLocalDragSessionId := 0;
      log := log + [Sent(cancel)];
      return true;
    }

    /** Dispatch one delivered packet; the log records what became of it. */
    method HandlePacket(m: Message, answers: HandleAnswers)
      modifies this
      ensures State() == Receives(dependencies, old(State()), m, answers)
    {
      var outcome := Ignored;
      if running && Decodes(m) {
        match m
        case FormatList(_, _, _) => outcome := HandleFormatList(m, answers);
        case DragStart(_, _, _) => outcome := HandleDragStart(m, answers);
        case DragMove(_, _) => outcome := HandleDragMove(m, answers);
        case DragDrop(_, _) => outcome := HandleDragDrop(m, answers);
        case DragCancel(_) => outcome := HandleDragCancel(m, answers);
      }
      log := log + [Received(m, outcome)];
    }

    method HandleFormatList(m: Message, answers: HandleAnswers) returns (outcome: Outcome)
      requires m.FormatList? && running && Decodes(m)
      modifies this`remoteBundle, this`activeRemoteDragSessionId
      ensures outcome == OutcomeOf(dependencies, old(State()), m, answers)
      ensures State().(log := old(log) + [Received(m, outcome)]) == AfterReceive(old(State()), m, outcome)
    {
      var policy := dependencies.policy;
      if !policy.allowReceive || !policy.allowWriteLocal || (m.fromDrag && !policy.allowDrag) {
        return Ignored;
      }
      if m.originSession == dependencies.sessionId && m.originSession != 0 {
        return Ignored;
      }
      if !answers.formatsLeft {
        return Ignored;
      }
      if dependencies.hasRegistry && !answers.stored {
        return Ignored;
      }
      remoteBundle := m.bundle;
      activeRemoteDragSessionId := 0;
      if dependencies.hasEndpoint && !answers.published {
        remoteBundle := NO_BUNDLE;
        return Withdrawn;
      }
      return Stored;
    }

    method HandleDragStart(m: Message, answers: HandleAnswers) returns (outcome: Outcome)
      requires m.DragStart? && running && Decodes(m)
      modifies this`activeRemoteDragSessionId
      ensures outcome == OutcomeOf(dependencies, old(State()), m, answers)
      ensures State().(log := old(log) + [Received(m, outcome)]) == AfterReceive(old(State()), m, outcome)
    {
      if !MayWrite(dependencies.policy) || !StartMatches(remoteBundle, m) || !dependencies.hasSink {
        return Ignored;
      }
      if !answers.sinkOk {
        return SinkTold(false);
      }
      activeRemoteDragSessionId := m.session;
      return SinkTold(true);
    }

    method HandleDragMove(m: Message, answers: HandleAnswers) returns (outcome: Outcome)
      requires m.DragMove? && running && Decodes(m)
      ensures outcome == OutcomeOf(dependencies, State(), m, answers)
    {
      if !MayWrite(dependencies.policy) || activeRemoteDragSessionId != m.session || !dependencies.hasSink {
        return Ignored;
      }
      return SinkTold(answers.sinkOk);
    }

    method HandleDragDrop(m: Message, answers: HandleAnswers) returns (outcome: Outcome)
      requires m.DragDrop? && running && Decodes(m)
      modifies this`activeRemoteDragSessionId
      ensures outcome == OutcomeOf(dependencies, old(State()), m, answers)
      ensures State().(log := old(log) + [Received(m, outcome)]) == AfterReceive(old(State()), m, outcome)
    {
      if !MayWrite(dependencies.policy) || activeRemoteDragSessionId != m.session || !dependencies.hasSink {
        return Ignored;
      }
      if !answers.sinkOk {
        return SinkTold(false);
      }
      activeRemoteDragSessionId := 0;
      return SinkTold(true);
    }

    method HandleDragCancel(m: Message, answers: HandleAnswers) returns (outcome: Outcome)
      requires m.DragCancel? && running && Decodes(m)
      modifies this`activeRemoteDragSessionId
      ensures outcome == OutcomeOf(dependencies, old(State()), m, answers)
      ensures State().(log := old(log) + [Received(m, outcome)]) == AfterReceive(old(State()), m, outcome)
    {
      if !dependencies.policy.allowDrag || activeRemoteDragSessionId != m.session || !dependencies.hasSink {
        return Ignored;
      }
      if !answers.sinkOk {
        return SinkTold(false);
      }
      activeRemoteDragSessionId := 0;
      return SinkTold(true);
    }
  }

  // ----- reading sessions off a log

  /** The sink accepted the start of a session. */
  predicate SinkStarts(e: PeerEvent) {
    e.Received? && e.message.DragStart? && e.outcome == SinkTold(true)
  }

  /** A delivered list replaced the offered bundle, whether or not it could then be published. */
  predicate Replaces(e: PeerEvent) {
    e.Received? && e.message.FormatList? && (e.outcome == Stored || e.outcome == Withdrawn)
  }

  /** After this event the sink's earlier session is over. */
  predicate EndsAtSink(e: PeerEvent) {
    || e == Reset || SinkStarts(e) || Replaces(e)
    || (e.Received? && (e.message.DragDrop? || e.message.DragCancel?) && e.outcome == SinkTold(true))
  }

  /** The sink is told to go on with, finish or abandon a session, whatever it answers. */
  predicate ContinuesAtSink(e: PeerEvent) {
    e.Received? && (e.message.DragMove? || e.message.DragDrop? || e.message.DragCancel?) && e.outcome.SinkTold?
  }

  predicate Stores(e: PeerEvent) {
    Replaces(e) && e.outcome == Stored
  }

  predicate SenderStarts(e: PeerEvent) {
    e.Sent? && e.message.DragStart?
  }

  predicate EndsAtSender(e: PeerEvent) {
    e == Reset || (e.Sent? && !e.message.DragMove?)
  }

  predicate ContinuesAtSender(e: PeerEvent) {
    e.Sent? && (e.message.DragMove? || e.message.DragDrop? || e.message.DragCancel?)
  }

  ghost predicate Quiet(log: seq<PeerEvent>, from: nat, to: nat, ends: PeerEvent -> bool)
    requires to <= |log|
  {
    forall i :: from < i < to ==> !ends(log[i])
  }

  /** The session the log says is open at the sink: its last accepted start, unless something ended it since. */
  ghost predicate OpenAtSink(log: seq<PeerEvent>, session: uint64) {
    exists j :: 0 <= j < |log| && SinkStarts(log[j]) && log[j].message.session == session
      && Quiet(log, j, |log|, EndsAtSink)
  }

  ghost predicate OpenAtSender(log: seq<PeerEvent>, session: uint64) {
    exists j :: 0 <= j < |log| && log[j].Sent? && log[j].message.DragStart? && log[j].message.session == session
                && Quiet(log, j, |log|, EndsAtSender)
  }

  /** The bundle of the last delivered list that replaced the offer, if it was not withdrawn. */
  ghost predicate Offered(log: seq<PeerEvent>, bundle: BundleKey) {
    exists j :: 0 <= j < |log| && Replaces(log[j]) && log[j].outcome == Stored && log[j].message.bundle == bundle
      && Quiet(log, j, |log|, Replaces)
  }

  predicate Announced(e: PeerEvent) {
    e.Sent? && e.message.FormatList?
  }

  /** The bundle of the last list sent. */
  ghost predicate LastAnnounced(log: seq<PeerEvent>, bundle: BundleKey) {
    exists j :: 0 <= j < |log| && Announced(log[j]) && log[j].message.bundle == bundle
      && Quiet(log, j, |log|, Announced)
  }

  // ----- the discipline every log keeps

  /** What the event may be, given the events before it. */
  ghost predicate Disciplined(before: seq<PeerEvent>, e: PeerEvent) {
    && (ContinuesAtSink(e) ==> OpenAtSink(before, e.message.session))
    && (SinkStarts(e) ==> e.message.session != 0)
    && (SenderStarts(e) ==> e.message.session != 0)
    && (Stores(e) ==> e.message.bundle != NO_BUNDLE)
    && (ContinuesAtSender(e) ==> OpenAtSender(before, e.message.session))
    && (e.Received? && e.message.DragStart? && e.outcome.SinkTold? ==> Offered(before, e.message.offer))
    && (e.Sent? && e.message.DragStart? ==> e.message.offer == NO_BUNDLE || LastAnnounced(before, e.message.offer))
  }

  ghost predicate KeepsDiscipline(log: seq<PeerEvent>) {
    forall k :: 0 <= k < |log| ==> Disciplined(log[..k], log[k])
  }

  /** The fields agree with the log. */
  ghost predicate Coherent(s: PeerState) {
    && KeepsDiscipline(s.log)
    && (forall session :: OpenAtSink(s.log, session) <==> session == s.activeRemote != 0)
    && (forall session :: OpenAtSender(s.log, session) <==> session == s.activeLocal != 0)
    && (forall bundle :: Offered(s.log, bundle) <==> bundle == s.remoteBundle != NO_BUNDLE)
    && (forall bundle :: LastAnnounced(s.log, bundle) ==> bundle == s.localBundle)
    && (s.localBundle != NO_BUNDLE ==> LastAnnounced(s.log, s.localBundle))
  }

  lemma QuietGoesOn(log: seq<PeerEvent>, e: PeerEvent, j: nat, ends: PeerEvent -> bool)
    requires j < |log| && Quiet(log, j, |log|, ends) && !ends(e)
    ensures Quiet(log + [e], j, |log| + 1, ends)
  {
  }

  /** The session open at the sink changes with the last event only. */
  lemma SinkSession(log: seq<PeerEvent>, e: PeerEvent, s: uint64)
    ensures OpenAtSink(log + [e], s) <==>
              (SinkStarts(e) && e.message.session == s) || (OpenAtSink(log, s) && !EndsAtSink(e))
  {
    hide EndsAtSink;
    var longer := log + [e];
    assert longer[|log|] == e;
    if OpenAtSink(log, s) && !EndsAtSink(e) {
      var j :| 0 <= j < |log| && SinkStarts(log[j]) && log[j].message.session == s && Quiet(log, j, |log|, EndsAtSink);
      QuietGoesOn(log, e, j, EndsAtSink);
      assert longer[j] == log[j];
    }
    if OpenAtSink(longer, s) && !(SinkStarts(e) && e.message.session == s) {
      var j :| 0 <= j < |longer| && SinkStarts(longer[j]) && longer[j].message.session == s
               && Quiet(longer, j, |longer|, EndsAtSink);
      assert !EndsAtSink(longer[|log|]);
      assert forall i :: 0 <= i < |log| ==> longer[i] == log[i];
      assert Quiet(log, j, |log|, EndsAtSink);
    }
  }

  /** The same for the session open at the sender, the offer in force and the list last sent. */
  lemma SenderSession(log: seq<PeerEvent>, e: PeerEvent, s: uint64)
    ensures OpenAtSender(log + [e], s) <==>
              (SenderStarts(e) && e.message.session == s) || (OpenAtSender(log, s) && !EndsAtSender(e))
  {
    hide EndsAtSender;
    var longer := log + [e];
    assert longer[|log|] == e;
    if OpenAtSender(log, s) && !EndsAtSender(e) {
      var j :| 0 <= j < |log| && log[j].Sent? && log[j].message.DragStart? && log[j].message.session == s
               && Quiet(log, j, |log|, EndsAtSender);
      QuietGoesOn(log, e, j, EndsAtSender);
      assert longer[j] == log[j];
    }
    if OpenAtSender(longer, s) && !(SenderStarts(e) && e.message.session == s) {
      var j :| 0 <= j < |longer| && longer[j].Sent? && longer[j].message.DragStart? && longer[j].message.session == s
               && Quiet(longer, j, |longer|, EndsAtSender);
      assert !EndsAtSender(longer[|log|]);
      assert forall i :: 0 <= i < |log| ==> longer[i] == log[i];
      assert Quiet(log, j, |log|, EndsAtSender);
    }
  }

  lemma OfferInForce(log: seq<PeerEvent>, e: PeerEvent, b: BundleKey)
    ensures Offered(log + [e], b) <==> (Stores(e) && e.message.bundle == b) || (Offered(log, b) && !Replaces(e))
  {
    var longer := log + [e];
    assert longer[|log|] == e;
    if Offered(log, b) && !Replaces(e) {
      var j :| 0 <= j < |log| && Replaces(log[j]) && log[j].outcome == Stored && log[j].message.bundle == b
               && Quiet(log, j, |log|, Replaces);
      QuietGoesOn(log, e, j, Replaces);
      assert longer[j] == log[j];
    }
    if Offered(longer, b) && !(Stores(e) && e.message.bundle == b) {
      var j :| 0 <= j < |longer| && Replaces(longer[j]) && longer[j].outcome == Stored && longer[j].message.bundle == b
               && Quiet(longer, j, |longer|, Replaces);
      assert !Replaces(longer[|log|]);
      assert forall i :: 0 <= i < |log| ==> longer[i] == log[i];
      assert Quiet(log, j, |log|, Replaces);
    }
  }

  lemma ListLastSent(log: seq<PeerEvent>, e: PeerEvent, b: BundleKey)
    ensures LastAnnounced(log + [e], b)
       <==> (Announced(e) && e.message.bundle == b) || (LastAnnounced(log, b) && !Announced(e))
  {
    var longer := log + [e];
    assert longer[|log|] == e;
    if LastAnnounced(log, b) && !Announced(e) {
      var j :| 0 <= j < |log| && Announced(log[j]) && log[j].message.bundle == b && Quiet(log, j, |log|, Announced);
      QuietGoesOn(log, e, j, Announced);
      assert longer[j] == log[j];
    }
    if LastAnnounced(longer, b) && !(Announced(e) && e.message.bundle == b) {
      var j :| 0 <= j < |longer| && Announced(longer[j]) && longer[j].message.bundle == b
               && Quiet(longer, j, |longer|, Announced);
      assert !Announced(longer[|log|]);
      assert forall i :: 0 <= i < |log| ==> longer[i] == log[i];
      assert Quiet(log, j, |log|, Announced);
    }
  }

  lemma OneMoreEntry(log: seq<PeerEvent>, e: PeerEvent)
    ensures forall s :: OpenAtSink(log + [e], s) <==>
              (SinkStarts(e) && e.message.session == s) || (OpenAtSink(log, s) && !EndsAtSink(e))
    ensures forall s :: OpenAtSender(log + [e], s) <==>
              (SenderStarts(e) && e.message.session == s) || (OpenAtSender(log, s) && !EndsAtSender(e))
    ensures forall b ::
              Offered(log + [e], b) <==> (Stores(e) && e.message.bundle == b) || (Offered(log, b) && !Replaces(e))
    ensures forall b :: LastAnnounced(log + [e], b)
              <==> (Announced(e) && e.message.bundle == b) || (LastAnnounced(log, b) && !Announced(e))
  {
    hide OpenAtSink, OpenAtSender, Offered, LastAnnounced;
    forall s ensures OpenAtSink(log + [e], s) <==>
              (SinkStarts(e) && e.message.session == s) || (OpenAtSink(log, s) && !EndsAtSink(e))
    {
      SinkSession(log, e, s);
    }
    forall s ensures OpenAtSender(log + [e], s) <==>
              (SenderStarts(e) && e.message.session == s) || (OpenAtSender(log, s) && !EndsAtSender(e))
    {
      SenderSession(log, e, s);
    }
    forall b ensures Offered(log + [e], b)
      <==> (Stores(e) && e.message.bundle == b) || (Offered(log, b) && !Replaces(e)) {
      OfferInForce(log, e, b);
    }
    forall b ensures LastAnnounced(log + [e], b)
              <==> (Announced(e) && e.message.bundle == b) || (LastAnnounced(log, b) && !Announced(e))
    {
      ListLastSent(log, e, b);
    }
  }

  lemma DisciplineGoesOn(log: seq<PeerEvent>, e: PeerEvent)
    requires KeepsDiscipline(log) && Disciplined(log, e)
    ensures KeepsDiscipline(log + [e])
  {
    hide Disciplined;
    forall k | 0 <= k <= |log| ensures Disciplined((log + [e])[..k], (log + [e])[k]) {
      assert (log + [e])[..k] == log[..k];
      assert log[..|log|] == log;
    }
  }

  lemma SendKeeps(d: Dependencies, s: PeerState, m: Message, sent: bool)
    requires Coherent(s)
    ensures Coherent(Sends(d, s, m, sent))
  {
    hide OpenAtSink, OpenAtSender, Offered, LastAnnounced, KeepsDiscipline;
    if MaySend(d, s, m) && sent {
      OneMoreEntry(s.log, Sent(m));
      DisciplineGoesOn(s.log, Sent(m));
    }
  }

  lemma AnnounceKeeps(d: Dependencies, s: PeerState, m: Message, answers: AnnounceAnswers)
    requires m.FormatList? && Coherent(s)
    ensures Coherent(Announces(d, s, m, answers))
  {
    hide OpenAtSink, OpenAtSender, Offered, LastAnnounced, KeepsDiscipline;
    if MayAnnounce(d, s, m, answers) && answers.sent {
      var e := Sent(Originated(d, m));
      OneMoreEntry(s.log, e);
      DisciplineGoesOn(s.log, e);
    }
  }

  lemma ReceiveKeeps(d: Dependencies, s: PeerState, m: Message, answers: HandleAnswers)
    requires Coherent(s)
    ensures Coherent(Receives(d, s, m, answers))
  {
    hide OpenAtSink, OpenAtSender, Offered, LastAnnounced, KeepsDiscipline;
    var e := Received(m, OutcomeOf(d, s, m, answers));
    OneMoreEntry(s.log, e);
    DisciplineGoesOn(s.log, e);
  }

  lemma ResetKeeps(s: PeerState, running: bool)
    requires Coherent(s)
    ensures Coherent(Resets(s, running))
  {
    hide OpenAtSink, OpenAtSender, Offered, LastAnnounced, KeepsDiscipline;
    OneMoreEntry(s.log, Reset);
    DisciplineGoesOn(s.log, Reset);
  }

  // ----- two peers joined by a first-in first-out channel each way

  datatype LocalStep =
    | Starts(networked: bool)
    | Announce(bundle: BundleKey, fromDrag: bool, originSession: uint64, announceAnswers: AnnounceAnswers)
    | Send(message: Message, sent: bool)
    | Interrupt(stopping: bool)

  datatype Step = Local(atA: bool, step: LocalStep) | Deliver(toB: bool, answers: HandleAnswers)

  datatype World = World(a: PeerState, b: PeerState, towardsB: seq<Message>, towardsA: seq<Message>)

  const IDLE := PeerState(false, NO_BUNDLE, NO_BUNDLE, 0, 0, [])
  const START := World(IDLE, IDLE, [], [])

  function Act(d: Dependencies, s: PeerState, step: LocalStep): PeerState {
    match step
    case Starts(networked) => s.(running := networked)
    case Announce(bundle, fromDrag, origin, answers) => Announces(d, s, FormatList(bundle, fromDrag, origin), answers)
    case Send(m, sent) => Sends(d, s, m, sent)
    case Interrupt(stopping) => Resets(s, s.running && !stopping)
  }

  /** The message a local step put on the channel, if any. */
  function Emitted(before: PeerState, after: PeerState): seq<Message> {
    if |after.log| > |before.log| && after.log[|after.log| - 1].Sent? then [after.log[|after.log| - 1].message] else []
  }

  function Next(da: Dependencies, db: Dependencies, w: World, step: Step): World {
    match step
    case Local(true, local) =>
      var a := Act(da, w.a, local);
      w.(a := a, towardsB := w.towardsB + Emitted(w.a, a))
    case Local(false, local) =>
      var b := Act(db, w.b, local);
      w.(b := b, towardsA := w.towardsA + Emitted(w.b, b))
    case Deliver(true, answers) =>
      if w.towardsB == [] then w
      else w.(b := Receives(db, w.b, w.towardsB[0], answers), towardsB := w.towardsB[1..])
    case Deliver(false, answers) =>
      if w.towardsA == [] then w
      else w.(a := Receives(da, w.a, w.towardsA[0], answers), towardsA := w.towardsA[1..])
  }

  function Run(da: Dependencies, db: Dependencies, steps: seq<Step>): World {
    if steps == [] then START else Next(da, db, Run(da, db, steps[..|steps| - 1]), steps[|steps| - 1])
  }

  function SentOf(log: seq<PeerEvent>): seq<Message> {
    if log == [] then []
    else SentOf(log[..|log| - 1]) + if log[|log| - 1].Sent? then [log[|log| - 1].message] else []
  }

  function ReceivedOf(log: seq<PeerEvent>): seq<Message> {
    if log == [] then []
    else ReceivedOf(log[..|log| - 1]) + if log[|log| - 1].Received? then [log[|log| - 1].message] else []
  }

  lemma OneMoreEvent(log: seq<PeerEvent>, e: PeerEvent)
    ensures SentOf(log + [e]) == SentOf(log) + if e.Sent? then [e.message] else []
    ensures ReceivedOf(log + [e]) == ReceivedOf(log) + if e.Received? then [e.message] else []
  {
    assert (log + [e])[..|log|] == log;
  }

  /** Both peers are coherent, and what one sent is what the other handled and then what is still under way. */
  ghost predicate Consistent(w: World) {
    && Coherent(w.a) && Coherent(w.b)
    && SentOf(w.a.log) == ReceivedOf(w.b.log) + w.towardsB
    && SentOf(w.b.log) == ReceivedOf(w.a.log) + w.towardsA
  }

  lemma ActKeeps(d: Dependencies, s: PeerState, step: LocalStep)
    requires Coherent(s)
    ensures Coherent(Act(d, s, step))
    ensures SentOf(Act(d, s, step).log) == SentOf(s.log) + Emitted(s, Act(d, s, step))
    ensures ReceivedOf(Act(d, s, step).log) == ReceivedOf(s.log)
  {
    hide Coherent, SentOf, ReceivedOf, MaySend, MayAnnounce;
    match step
    case Starts(networked) => RestartKeeps(s, networked);
    case Announce(bundle, fromDrag, origin, answers) =>
      var m := FormatList(bundle, fromDrag, origin);
      AnnounceKeeps(d, s, m, answers);
      OneMoreEvent(s.log, Sent(Originated(d, m)));
    case Send(m, sent) =>
      SendKeeps(d, s, m, sent);
      OneMoreEvent(s.log, Sent(m));
    case Interrupt(stopping) =>
      ResetKeeps(s, s.running && !stopping);
      OneMoreEvent(s.log, Reset);
  }

  lemma RestartKeeps(s: PeerState, running: bool)
    requires Coherent(s)
    ensures Coherent(s.(running := running))
  {
  }

  lemma DeliveryKeeps(d: Dependencies, s: PeerState, queue: seq<Message>, answers: HandleAnswers)
    requires Coherent(s) && queue != []
    ensures var after := Receives(d, s, queue[0], answers);
            && Coherent(after) && SentOf(after.log) == SentOf(s.log)
            && ReceivedOf(after.log) + queue[1..] == ReceivedOf(s.log) + queue
  {
    hide Coherent, SentOf, ReceivedOf, OutcomeOf;
    ReceiveKeeps(d, s, queue[0], answers);
    OneMoreEvent(s.log, Received(queue[0], OutcomeOf(d, s, queue[0], answers)));
    assert queue == [queue[0]] + queue[1..];
  }

  lemma NextKeeps(da: Dependencies, db: Dependencies, w: World, step: Step)
    requires Consistent(w)
    ensures Consistent(Next(da, db, w, step))
  {
    hide Coherent, SentOf, ReceivedOf, Act, Emitted, Receives;
    match step
    case Local(true, local) => ActKeeps(da, w.a, local);
    case Local(false, local) => ActKeeps(db, w.b, local);
    case Deliver(true, answers) =>
      if w.towardsB != [] {
        DeliveryKeeps(db, w.b, w.towardsB, answers);
      }
    case Deliver(false, answers) =>
      if w.towardsA != [] {
        DeliveryKeeps(da, w.a, w.towardsA, answers);
      }
  }

  lemma {:induction false} EveryRunIsConsistent(da: Dependencies, db: Dependencies, steps: seq<Step>)
    ensures Consistent(Run(da, db, steps))
  {
    if steps != [] {
      EveryRunIsConsistent(da, db, steps[..|steps| - 1]);
      NextKeeps(da, db, Run(da, db, steps[..|steps| - 1]), steps[|steps| - 1]);
    }
  }

  function LogAt(w: World, atA: bool): seq<PeerEvent> {
    if atA then w.a.log else w.b.log
  }

  /** In every run and at either peer, a move, drop or cancel the sink is told for a session follows an accepted
      start of that session, with no accepted drop or cancel, no newer accepted start, no replaced offer and no
      reset in between. */
  lemma SinkCallsFollowAcceptedStart(da: Dependencies, db: Dependencies, steps: seq<Step>, atA: bool, k: nat)
    requires var log := LogAt(Run(da, db, steps), atA); k < |log| && ContinuesAtSink(log[k])
    ensures var log := LogAt(Run(da, db, steps), atA);
            exists j :: 0 <= j < k && SinkStarts(log[j]) && log[j].message.session == log[k].message.session
                        && forall i :: j < i < k ==> !EndsAtSink(log[i])
  {
    hide Run;
    EveryRunIsConsistent(da, db, steps);
    var log := LogAt(Run(da, db, steps), atA);
    assert Disciplined(log[..k], log[k]);
    var j :| 0 <= j < k && SinkStarts(log[..k][j]) && log[..k][j].message.session == log[k].message.session
             && Quiet(log[..k], j, k, EndsAtSink);
    assert forall i :: j < i < k ==> log[..k][i] == log[i];
    assert SinkStarts(log[j]);
  }

  /** The sending side keeps the same order: no move, drop or cancel goes out but for the session last started. */
  lemma SentMessagesFollowStart(da: Dependencies, db: Dependencies, steps: seq<Step>, atA: bool, k: nat)
    requires var log := LogAt(Run(da, db, steps), atA); k < |log| && ContinuesAtSender(log[k])
    ensures var log := LogAt(Run(da, db, steps), atA);
            exists j :: 0 <= j < k && log[j].Sent? && log[j].message.DragStart?
                        && log[j].message.session == log[k].message.session
                        && forall i :: j < i < k ==> !EndsAtSender(log[i])
  {
    hide Run;
    EveryRunIsConsistent(da, db, steps);
    var log := LogAt(Run(da, db, steps), atA);
    assert Disciplined(log[..k], log[k]);
    var j :| 0 <= j < k && log[..k][j].Sent? && log[..k][j].message.DragStart?
             && log[..k][j].message.session == log[k].message.session && Quiet(log[..k], j, k, EndsAtSender);
    assert forall i :: j < i < k ==> log[..k][i] == log[i];
    assert log[j].Sent? && log[j].message.DragStart?;
  }

  /** In every run and at either peer, a start the sink is told names the offer of the last list that was stored,
      still in force, and the other peer sent that very start. */
  lemma SinkStartsNameStoredOffer(da: Dependencies, db: Dependencies, steps: seq<Step>, atA: bool, k: nat)
    requires var log := LogAt(Run(da, db, steps), atA);
             k < |log| && log[k].Received? && log[k].message.DragStart? && log[k].outcome.SinkTold?
    ensures var log := LogAt(Run(da, db, steps), atA); Offered(log[..k], log[k].message.offer)
    ensures Sent(LogAt(Run(da, db, steps), atA)[k].message) in LogAt(Run(da, db, steps), !atA)
  {
    hide Run, Offered;
    EveryRunIsConsistent(da, db, steps);
    var w := Run(da, db, steps);
    var log := LogAt(w, atA);
    assert Disciplined(log[..k], log[k]);
    ReceivedIsListed(log, k);
    SentIsLogged(LogAt(w, !atA), log[k].message);
  }

  lemma {:induction false} ReceivedIsListed(log: seq<PeerEvent>, k: nat)
    requires k < |log| && log[k].Received?
    ensures log[k].message in ReceivedOf(log)
  {
    if k < |log| - 1 {
      ReceivedIsListed(log[..|log| - 1], k);
    }
  }

  lemma {:induction false} SentIsLogged(log: seq<PeerEvent>, m: Message)
    requires m in SentOf(log)
    ensures Sent(m) in log
  {
    if !(log[|log| - 1].Sent? && log[|log| - 1].message == m) {
      SentIsLogged(log[..|log| - 1], m);
    }
  }

  // ----- overlapping drags

  /** A delivered start takes the place of a session that is open at the sink, with no cancel for that session,
      exactly when a session is open and nothing stands in the way of the start. */
  lemma StartReplacesOpenSessionExactlyWhen(d: Dependencies, s: PeerState, m: Message, answers: HandleAnswers)
    requires Coherent(s) && m.DragStart?
    ensures var after := Receives(d, s, m, answers);
            && after.log[..|s.log|] == s.log && |after.log| == |s.log| + 1
            && ((exists session :: OpenAtSink(s.log, session)) && SinkStarts(after.log[|s.log|])
                <==> s.activeRemote != 0 && s.running && Decodes(m) && MayWrite(d.policy) && s.remoteBundle == m.offer
                     && d.hasSink && answers.sinkOk)
            && (SinkStarts(after.log[|s.log|]) ==>
                  forall session :: OpenAtSink(after.log, session) <==> session == m.session)
  {
    hide OpenAtSink, KeepsDiscipline, Offered, OpenAtSender, LastAnnounced;
    ReceiveKeeps(d, s, m, answers);
    assert s.activeRemote != 0 ==> OpenAtSink(s.log, s.activeRemote);
  }

  lemma RunOneMore(da: Dependencies, db: Dependencies, steps: seq<Step>, step: Step) returns (more: seq<Step>, w: World)
    ensures more == steps + [step] && w == Run(da, db, more) == Next(da, db, Run(da, db, steps), step)
  {
    more := steps + [step];
    w := Run(da, db, more);
    assert more[..|steps|] == steps;
  }

  const PERMISSIVE := ClipboardPolicy(true, true, true, true)
  const OFFER := BundleKey(1, 1, 1)

  function AllYes(sessionId: uint64): Dependencies {
    Dependencies(PERMISSIVE, sessionId, true, true, true)
  }

  /** A run in which it happens: two starts for one offer, both accepted, the second while the first is open. */
  lemma OverlappingDrags() returns (steps: seq<Step>)
    ensures var log := Run(AllYes(1), AllYes(2), steps).b.log;
            && |log| == 3 && SinkStarts(log[1]) && SinkStarts(log[2])
            && OpenAtSink(log[..2], 1) && !OpenAtSink(log, 1) && OpenAtSink(log, 2)
  {
    hide Run;
    var first, second := DragStart(1, OFFER, 1), DragStart(2, OFFER, 1);
    var w;
    steps, w := OfferIsStored();
    steps, w := StartIsAccepted(steps, first);
    steps, w := StartIsAccepted(steps, second);
    var log := w.b.log;
    SinkSession(log[..1], log[1], 1);
    SinkSession(log[..2], log[2], 1);
    SinkSession(log[..2], log[2], 2);
    assert log[..1] + [log[1]] == log[..2] && log[..2] + [log[2]] == log;
  }

  lemma OfferIsStored() returns (steps: seq<Step>, w: World)
    ensures w == Run(AllYes(1), AllYes(2), steps) && w.towardsB == []
    ensures w.a.running && w.a.localBundle == OFFER && w.b.running && w.b.remoteBundle == OFFER && |w.b.log| == 1
  {
    steps, w := RunOneMore(AllYes(1), AllYes(2), [], Local(true, Starts(true)));
    steps, w := RunOneMore(AllYes(1), AllYes(2), steps, Local(false, Starts(true)));
    hide Run;
    steps, w := RunOneMore(AllYes(1), AllYes(2), steps,
                           Local(true, Announce(OFFER, false, 0, AnnounceAnswers(true, true, true, true))));
    steps, w := RunOneMore(AllYes(1), AllYes(2), steps, Deliver(true, HandleAnswers(true, true, true, true)));
  }

  lemma StartIsAccepted(before: seq<Step>, start: Message) returns (steps: seq<Step>, w: World)
    requires start.DragStart? && start.session != 0 && start.offer == OFFER && start.action == 1
    requires var w := Run(AllYes(1), AllYes(2), before);
             w.towardsB == [] && w.a.running && w.a.localBundle == OFFER && w.b.running && w.b.remoteBundle == OFFER
    ensures w == Run(AllYes(1), AllYes(2), steps) && w.towardsB == []
    ensures w.a.running && w.a.localBundle == OFFER && w.b.running && w.b.remoteBundle == OFFER
    ensures w.b.log == Run(AllYes(1), AllYes(2), before).b.log + [Received(start, SinkTold(true))]
  {
    hide Run;
    steps, w := RunOneMore(AllYes(1), AllYes(2), before, Local(true, Send(start, true)));
    assert w.towardsB == [start];
    steps, w := RunOneMore(AllYes(1), AllYes(2), steps, Deliver(true, HandleAnswers(true, true, true, true)));
  }

  // ----- what is sent and what the sink is told, exactly

  /** A drag message goes out exactly when the peer runs, may announce and drag, the channel takes it, and the message
      fits: a start names the local bundle, anything else the session open at the sender. */
  lemma SentExactly(d: Dependencies, s: PeerState, m: Message, sent: bool)
    requires Coherent(s) && !m.FormatList?
    ensures var after := Sends(d, s, m, sent);
            var fits := match m
                        case DragStart(session, offer, action) => session != 0 && offer == s.localBundle && action <= 3
                        case DragMove(session, action) => OpenAtSender(s.log, session) && action <= 3
                        case DragDrop(session, action) => OpenAtSender(s.log, session) && action <= 3
                        case DragCancel(session) => OpenAtSender(s.log, session)
                        case FormatList(_, _, _) => false;
            var goes := s.running && d.policy.allowAnnounce && d.policy.allowDrag && sent && fits;
            after.log == if goes then s.log + [Sent(m)] else s.log
  {
    hide KeepsDiscipline, OpenAtSink, OpenAtSender, Offered, LastAnnounced;
  }

  /** A list goes out exactly when the peer runs, may announce, and drag if the list comes from a drag, some format is
      left, the registry keeps it and the channel takes it; it then names this session unless it named another. */
  lemma AnnouncedExactly(d: Dependencies, s: PeerState, m: Message, answers: AnnounceAnswers)
    requires m.FormatList?
    ensures var after := Announces(d, s, m, answers);
            var goes := s.running && d.policy.allowAnnounce && (m.fromDrag ==> d.policy.allowDrag)
                        && answers == AnnounceAnswers(true, true, answers.stored, true)
                        && (d.hasRegistry ==> answers.stored);
            var named := if m.originSession == 0 then d.sessionId else m.originSession;
            if goes then after.log == s.log + [Sent(m.(originSession := named))] && after.localBundle == m.bundle
            else after == s
  {
  }

  /** What the sink is told. A start only for the offer in force, anything else only for the session open at the sink;
      starts, moves and drops need leave to receive, to drag and to write, a cancel to drag only. */
  lemma SinkToldExactly(d: Dependencies, s: PeerState, m: Message, answers: HandleAnswers)
    requires Coherent(s) && !m.FormatList?
    ensures var may := d.policy.allowReceive && d.policy.allowDrag && d.policy.allowWriteLocal;
            var fits := match m
                        case DragStart(session, offer, action) =>
                          may && session != 0 && action <= 3 && offer.bundleId != 0 && offer.offerId != 0
                          && offer.ownerEpoch != 0 && Offered(s.log, offer)
                        case DragMove(session, action) => may && action <= 3 && OpenAtSink(s.log, session)
                        case DragDrop(session, action) => may && action <= 3 && OpenAtSink(s.log, session)
                        case DragCancel(session) => d.policy.allowDrag && OpenAtSink(s.log, session)
                        case FormatList(_, _, _) => false;
            OutcomeOf(d, s, m, answers) == if s.running && d.hasSink && fits then SinkTold(answers.sinkOk) else Ignored
  {
    hide KeepsDiscipline, OpenAtSink, OpenAtSender, Offered, LastAnnounced;
  }

  /** A delivered list replaces the offer exactly when it has an identity, may be received and written, and dragged if
      it comes from a drag, comes from another session, has a format left and is kept by the registry; a native
      clipboard that does not publish it withdraws it again. */
  lemma ListStoredExactly(d: Dependencies, s: PeerState, m: Message, answers: HandleAnswers)
    requires m.FormatList?
    ensures var kept := s.running && m.bundle.bundleId != 0 && m.bundle.offerId != 0
                        && d.policy.allowReceive && d.policy.allowWriteLocal && (m.fromDrag ==> d.policy.allowDrag)
                        && (m.originSession == 0 || m.originSession != d.sessionId)
                        && answers.formatsLeft && (d.hasRegistry ==> answers.stored);
            OutcomeOf(d, s, m, answers)
              == if !kept then Ignored else if d.hasEndpoint && !answers.published then Withdrawn else Stored
  {
  }
}
