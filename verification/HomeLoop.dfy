/**
 The config subscriber loop as a machine over atomic steps, with the rest of the program
 free to use or close the client between any two of them.
 */
module HomeLoop {
  import opened Prelude
  import opened HomeSpec
  import opened HomeFailover
  import Text

  /** Where the subscriber stands; `on` is the address of the connection it subscribes on. */
  datatype Stage = Top | Connect | Ping | Discover | Fetch | Apply | OpenSub
                 | Subscribe(on: Address) | Listen(on: Address) | Stopped

  /** What the network and the config callback have answered since the last reconnect. */
  datatype Evidence = Evidence(pinged: bool, config: Option<Address>, applied: bool, subscribed: Option<Address>)

  const NOTHING := Evidence(false, None, false, None)

  datatype Loop = Loop(home: Home, stage: Stage, seen: Evidence, reported: set<Address>)

  /**
   One step. `Cancel` is a cancelled context seen at the top of the loop. `Go` advances the
   current stage, with the TLS options that can be built and whether its operation
   succeeds. `Nodes` is a parsed CLUSTER NODES reply. The next five are what a
   subscription can bring, the last two are calls from elsewhere.
   */
  datatype Event =
    | Cancel
    | Go(tls: Tls, ok: bool)
    | Nodes(tls: Tls, reply: seq<ClusterNode>)
    | TimedOut | Broken | Pong | ConfigPushed | NodesPushed(payload: seq<ClusterNode>)
    | UsedElsewhere(tls: Tls) | ClosedElsewhere

  /** markReconnectFailure, then back to the top. */
  function Retry(l: Loop): Loop {
    l.(home := AfterReconnectFailure(l.home), stage := Top)
  }

  function Start(h: Home): Loop {
    Loop(h, if h.enabled then Top else Stopped, NOTHING, {})
  }

  function Next(l: Loop, e: Event): Loop {
    match e
    case UsedElsewhere(tls) => l.(home := Ensure(l.home, tls))
    case ClosedElsewhere => l.(home := Close(l.home))
    case Cancel => if l.stage == Top then l.(home := l.home.(heartbeat := false), stage := Stopped) else l
    case Go(tls, ok) => Advance(l, tls, ok)
    case Nodes(tls, reply) => if l.stage == Discover then Discovered(l, tls, reply) else l
    case _ => if l.stage.Listen? then Received(l, e) else l
  }

  function Advance(l: Loop, tls: Tls, ok: bool): Loop {
    var h := Ensure(l.home, tls);
    var up := Ensured(l.home, tls);
    match l.stage
    case Top => Loop(Close(l.home), Connect, NOTHING, l.reported)
    case Connect => if up then l.(home := h, stage := Ping) else Retry(l.(home := h))
    case Ping =>
      if up && ok then l.(home := h, stage := Discover, seen := l.seen.(pinged := true)) else Retry(l.(home := h))
    case Discover => if l.home.discovery then l.(home := h, stage := Fetch) else l.(stage := Fetch)
    case Fetch =>
      if up && ok then l.(home := h, stage := Apply, seen := l.seen.(config := h.cmd)) else Retry(l.(home := h))
    case Apply => if ok then l.(stage := OpenSub, seen := l.seen.(applied := true)) else l.(stage := Top)
    case OpenSub => if up then l.(home := h, stage := Subscribe(h.sub.value)) else Retry(l.(home := h))
    case Subscribe(on) =>
      if ok then l.(home := l.home.(failures := 0, heartbeat := true),
                    stage := Listen(on), seen := l.seen.(subscribed := Some(on)))
      else Retry(l)
    case _ => l
  }

  /** A CLUSTER NODES reply: discovery must be on and the command client up. */
  function Discovered(l: Loop, tls: Tls, reply: seq<ClusterNode>): Loop {
    if !l.home.discovery then l.(stage := Fetch)
    else if !Ensured(l.home, tls) then l.(home := Ensure(l.home, tls), stage := Fetch)
    else l.(home := Refreshed(Ensure(l.home, tls), reply), stage := Fetch, reported := l.reported + Reported(reply))
  }

  function Received(l: Loop, e: Event): Loop {
    match e
    case TimedOut => l.(home := AfterSubscriptionTimeout(l.home.(heartbeat := false)), stage := Top)
    case Broken => Retry(l.(home := l.home.(heartbeat := false)))
    case Pong => l.(home := l.home.(failures := 0))
    case NodesPushed(payload) => l.(home := Updated(l.home, payload), reported := l.reported + Reported(payload))
    case _ => l
  }

  function Run(l: Loop, events: seq<Event>): Loop {
    if events == [] then l else Next(Run(l, events[..|events| - 1]), events[|events| - 1])
  }

  // ----- what every step keeps ------------------------------------------------------------------

  /** How much of the handshake is behind the subscriber, and on which node. */
  ghost predicate Evidenced(l: Loop) {
    && (l.home.heartbeat ==> l.stage.Listen?)
    && (l.stage.Discover? || l.stage.Fetch? ==> l.seen.pinged)
    && (l.stage.Apply? || l.stage.OpenSub? ==> l.seen.pinged && l.seen.config == Some(Here(l.home)))
    && (l.stage.OpenSub? ==> l.seen.applied)
    && (l.stage.Subscribe? || l.stage.Listen? ==>
          l.seen.pinged && l.seen.applied && l.seen.config == Some(l.stage.on) && l.stage.on == Here(l.home))
    && (l.stage.Listen? ==> l.seen.subscribed == Some(l.stage.on))
  }

  /** Every known node, and the current address itself, is the first address or was reported. */
  ghost predicate Sourced(l: Loop, first: Address) {
    && (Here(l.home) == first || Here(l.home) in l.reported)
    && Address(Text.TrimSpace(l.home.seedHost), l.home.seedPort) == first
    && forall i :: 0 <= i < |l.home.nodes| ==> AddressOf(l.home.nodes[i]) in l.reported
  }

  lemma CallsKeepTheRest(h: Home, tls: Tls, reply: seq<ClusterNode>)
    ensures Ensure(h, tls).(cmd := h.cmd, sub := h.sub) == h
    ensures AfterReconnectFailure(h).heartbeat == AfterSubscriptionTimeout(h).heartbeat == h.heartbeat
    ensures Refreshed(h, reply).heartbeat == Updated(h, reply).heartbeat == h.heartbeat
    ensures Updated(h, reply).host == h.host && Updated(h, reply).port == h.port
  {
  }

  lemma StepKeepsEvidence(l: Loop, e: Event)
    requires Evidenced(l) && Sound(l.home)
    ensures Evidenced(Next(l, e))
  {
    hide Advance, AfterReconnectFailure, AfterSubscriptionTimeout, Refreshed, Updated;
    match e
    case Go(tls, ok) => AdvanceKeepsEvidence(l, tls, ok);
    case Nodes(tls, reply) =>
      CallsKeepTheRest(l.home, tls, reply);
      CallsKeepTheRest(Ensure(l.home, tls), tls, reply);
    case UsedElsewhere(tls) => CallsKeepTheRest(l.home, tls, []);
    case NodesPushed(payload) => CallsKeepTheRest(l.home, Tls(true, true), payload);
    case _ => CallsKeepTheRest(l.home.(heartbeat := false), Tls(true, true), []);
  }

  lemma AdvanceKeepsEvidence(l: Loop, tls: Tls, ok: bool)
    requires Evidenced(l) && Sound(l.home)
    ensures Evidenced(Advance(l, tls, ok))
  {
    hide AfterReconnectFailure, Ensure, Ensured, AfterSubscriptionTimeout;
    CallsKeepTheRest(l.home, tls, []);
    CallsKeepTheRest(Ensure(l.home, tls), tls, []);
    EnsuredMeansConnected(l.home, tls);
  }

  lemma StepIsSound(l: Loop, e: Event)
    requires Sound(l.home)
    ensures Sound(Next(l, e).home)
  {
    hide Advance, Received, Refreshed, Updated;
    match e
    case Go(tls, ok) => AdvanceIsSound(l, tls, ok);
    case Nodes(tls, reply) =>
      OperationsAreSound(l.home, tls, reply);
      OperationsAreSound(Ensure(l.home, tls), tls, reply);
    case _ => ReceivedIsSound(l, e);
  }

  lemma AdvanceIsSound(l: Loop, tls: Tls, ok: bool)
    requires Sound(l.home)
    ensures Sound(Advance(l, tls, ok).home)
  {
    hide AfterReconnectFailure, AfterSubscriptionTimeout, Ensure, Ensured, Refreshed, Updated;
    OperationsAreSound(l.home, tls, []);
    FailuresAreSound(Ensure(l.home, tls));
  }

  lemma ReceivedIsSound(l: Loop, e: Event)
    requires Sound(l.home)
    ensures Sound(Received(l, e).home)
  {
    hide AfterReconnectFailure, AfterSubscriptionTimeout, Updated;
    var payload := if e.NodesPushed? then e.payload else [];
    OperationsAreSound(l.home, Tls(true, true), payload);
    OperationsAreSound(l.home.(heartbeat := false), Tls(true, true), payload);
  }

  lemma NextIsSourced(h: Home, l: Loop, first: Address)
    requires Sourced(l.(home := h), first)
    ensures Sourced(l.(home := SwitchToNext(h)), first)
  {
    NextLands(h);
    var g := SwitchToNext(h);
    if g != h {
      var i :| 0 <= i < |Candidates(h)| && AddressOf(Candidates(h)[i]) == Here(g);
    }
  }

  lemma RefreshIsSourced(h: Home, l: Loop, reply: seq<ClusterNode>, first: Address)
    requires Sourced(l.(home := h), first)
    ensures Sourced(l.(home := Refreshed(h, reply), reported := l.reported + Reported(reply)), first)
    ensures Sourced(l.(home := Updated(h, reply), reported := l.reported + Reported(reply)), first)
  {
    var nodes := Normalize(reply);
    forall i | 0 <= i < |nodes|
      ensures AddressOf(nodes[i]) in Reported(reply)
    {
      NormalizedAreUsable(reply, i);
    }
    if nodes != [] { SwitchLands(h.(nodes := nodes, failures := 0), nodes[0]); }
  }

  lemma StepIsSourced(l: Loop, e: Event, first: Address)
    requires Sourced(l, first)
    ensures Sourced(Next(l, e), first)
  {
    hide Advance, Received, Refreshed;
    match e
    case Go(tls, ok) => AdvanceIsSourced(l, tls, ok, first);
    case Nodes(tls, reply) =>
      EnsureIsSourced(l, tls, first);
      RefreshIsSourced(Ensure(l.home, tls), l, reply, first);
    case UsedElsewhere(tls) => EnsureIsSourced(l, tls, first);
    case _ => ReceivedIsSourced(l, e, first);
  }

  lemma EnsureIsSourced(l: Loop, tls: Tls, first: Address)
    requires Sourced(l, first)
    ensures Sourced(l.(home := Ensure(l.home, tls)), first)
  {
  }

  lemma RetryIsSourced(l: Loop, first: Address)
    requires Sourced(l, first)
    ensures Sourced(Retry(l), first)
  {
    NextIsSourced(l.home.(failures := 0), l, first);
  }

  lemma AdvanceIsSourced(l: Loop, tls: Tls, ok: bool, first: Address)
    requires Sourced(l, first)
    ensures Sourced(Advance(l, tls, ok), first)
  {
    hide Retry, Ensure, Ensured, Text.TrimSpace;
    EnsureIsSourced(l, tls, first);
    RetryIsSourced(l, first);
    RetryIsSourced(l.(home := Ensure(l.home, tls)), first);
  }

  lemma ReceivedIsSourced(l: Loop, e: Event, first: Address)
    requires Sourced(l, first)
    ensures Sourced(Received(l, e), first)
  {
    hide Retry, SwitchToNext, Updated;
    var off := l.home.(heartbeat := false);
    RetryIsSourced(l.(home := off), first);
    NextIsSourced(off.(failures := 0), l, first);
    RefreshIsSourced(l.home, l, if e.NodesPushed? then e.payload else [], first);
  }

  // ----- whole runs --------------------------------------------------------------------------------

  lemma {:induction false} EveryRunIsSound(host: string, port: int, enabled: bool, discovery: bool, events: seq<Event>)
    ensures Sound(Run(Start(New(host, port, enabled, discovery)), events).home)
    ensures Evidenced(Run(Start(New(host, port, enabled, discovery)), events))
    ensures Sourced(Run(Start(New(host, port, enabled, discovery)), events), Address(Text.TrimSpace(host), port))
  {
    hide Next;
    var l := Start(New(host, port, enabled, discovery));
    if events == [] {
      Text.TrimSpaceIdempotent(host);
    } else {
      var before := Run(l, events[..|events| - 1]);
      EveryRunIsSound(host, port, enabled, discovery, events[..|events| - 1]);
      StepIsSound(before, events[|events| - 1]);
      StepKeepsEvidence(before, events[|events| - 1]);
      StepIsSourced(before, events[|events| - 1], Address(Text.TrimSpace(host), port));
    }
  }

  /**
   A heartbeat means that since the last reconnect the ping was answered, the config was
   fetched and applied, and the subscription was confirmed, the last three on the node
   that is still the current one.
   */
  lemma HeartbeatMeansConnected(host: string, port: int, enabled: bool, discovery: bool, events: seq<Event>)
    requires Run(Start(New(host, port, enabled, discovery)), events).home.heartbeat
    ensures var l := Run(Start(New(host, port, enabled, discovery)), events);
      l.seen.pinged && l.seen.applied && l.seen.config == l.seen.subscribed == Some(Here(l.home))
  {
    EveryRunIsSound(host, port, enabled, discovery, events);
  }

  /** Whatever happens, the client talks to its seed or to a node the cluster reported. */
  lemma TalksToSeedOrReported(host: string, port: int, enabled: bool, discovery: bool, events: seq<Event>)
    ensures var l := Run(Start(New(host, port, enabled, discovery)), events);
      (l.home.cmd != None ==> l.home.cmd.value == Address(Text.TrimSpace(host), port) || l.home.cmd.value in l.reported)
      && (l.home.sub != None ==>
        l.home.sub.value == Address(Text.TrimSpace(host), port) || l.home.sub.value in l.reported)
  {
    EveryRunIsSound(host, port, enabled, discovery, events);
  }

  lemma StepWithoutDiscovery(l: Loop, e: Event)
    requires !l.home.discovery
    ensures !Next(l, e).home.discovery && Here(Next(l, e).home) == Here(l.home) && Next(l, e).home.nodes == l.home.nodes
  {
    hide Advance, Received, Text.TrimSpace, Refreshed;
    match e
    case Go(tls, ok) => AdvanceWithoutDiscovery(l, tls, ok);
    case _ => ReceivedWithoutDiscovery(l, e);
  }

  lemma AdvanceWithoutDiscovery(l: Loop, tls: Tls, ok: bool)
    requires !l.home.discovery
    ensures var h := Advance(l, tls, ok).home;
      !h.discovery && Here(h) == Here(l.home) && h.nodes == l.home.nodes
  {
    hide Ensured, SwitchToNext, Text.TrimSpace, Usable;
  }

  lemma ReceivedWithoutDiscovery(l: Loop, e: Event)
    requires !l.home.discovery
    ensures var h := Received(l, e).home;
      !h.discovery && Here(h) == Here(l.home) && h.nodes == l.home.nodes
  {
    hide SwitchToNext, Text.TrimSpace;
  }

  /** With discovery disabled no run ever leaves the configured address or learns a node. */
  lemma {:induction false} NoDiscoveryNeverMoves(host: string, port: int, enabled: bool, events: seq<Event>)
    ensures var h := Run(Start(New(host, port, enabled, false)), events).home;
      !h.discovery && Here(h) == Address(Text.TrimSpace(host), port) && h.nodes == []
  {
    hide Next;
    if events != [] {
      NoDiscoveryNeverMoves(host, port, enabled, events[..|events| - 1]);
      StepWithoutDiscovery(Run(Start(New(host, port, enabled, false)), events[..|events| - 1]), events[|events| - 1]);
    }
  }

  // ----- the handshake goes through -----------------------------------------------------------------------

  /** n successful steps in a row. */
  function Smoothly(n: nat): seq<Event> {
    seq(n, _ => Go(Tls(true, true), true))
  }

  lemma SmoothStep(l: Loop, n: nat)
    requires n > 0
    ensures Run(l, Smoothly(n)) == Next(Run(l, Smoothly(n - 1)), Go(Tls(true, true), true))
  {
    hide Next;
    assert Smoothly(n)[..n - 1] == Smoothly(n - 1);
  }

  /** Where n such steps lead. */
  ghost predicate Reached(l: Loop, n: nat, here: Address) {
    && Here(l.home) == here && l.home.enabled && l.home.failures == 0
    && match n
       case 0 => l.stage == Top && l.home.cmd == l.home.sub == None
       case 1 => l.stage == Connect && l.home.cmd == l.home.sub == None
       case 2 => l.stage == Ping && Up(l.home, here)
       case 3 => l.stage == Discover && Up(l.home, here)
       case 4 => l.stage == Fetch && Up(l.home, here)
       case 5 => l.stage == Apply && Up(l.home, here)
       case 6 => l.stage == OpenSub && Up(l.home, here)
       case 7 => l.stage == Subscribe(here) && Up(l.home, here)
       case 8 => l.stage == Listen(here) && Up(l.home, here) && l.home.heartbeat
       case _ => false
  }

  predicate Up(h: Home, here: Address) {
    h.cmd == h.sub == Some(here)
  }

  lemma ReachedNext(l: Loop, n: nat, here: Address)
    requires n < 8 && Reached(l, n, here) && Usable(here)
    ensures Reached(Next(l, Go(Tls(true, true), true)), n + 1, here)
  {
    hide AfterReconnectFailure, Text.TrimSpace;
  }

  /** On a usable address, eight steps without a failure lead from the start to a heartbeat, on that address. */
  lemma HandshakeSucceeds(host: string, port: int, discovery: bool)
    requires Text.TrimSpace(host) != "" && port > 0
    ensures var here := Address(Text.TrimSpace(host), port);
      var l := Run(Start(New(host, port, true, discovery)), Smoothly(8));
      && l.stage == Listen(here) && l.home.heartbeat && Here(l.home) == here
      && l.home.cmd == l.home.sub == Some(here)
  {
    hide Text.TrimSpace, Next;
    var l, here := Start(New(host, port, true, discovery)), Address(Text.TrimSpace(host), port);
    assert Smoothly(0) == [];
    for n := 0 to 8
      invariant Reached(Run(l, Smoothly(n)), n, here)
    {
      SmoothStep(l, n + 1);
      ReachedNext(Run(l, Smoothly(n)), n, here);
    }
  }

  // ----- what each step leads to --------------------------------------------------------------------------

  /** The address after a move to the next candidate, if there is any. */
  ghost predicate MovedOn(h: Home, after: Home) {
    if h.discovery && exists a :: NextAddress(h, a) then NextAddress(h, Here(after)) else Here(after) == Here(h)
  }

  /** A failure counts up to two; with the third in a row, the client moves on. */
  ghost predicate FailureCounted(h: Home, after: Home) {
    if h.discovery && h.failures < 2 then after.failures == h.failures + 1 && Here(after) == Here(h)
    else after.failures == 0 && MovedOn(h, after)
  }

  /** The top of the loop starts afresh: no clients, no heartbeat, nothing answered yet. */
  lemma TopStartsAfresh(l: Loop, tls: Tls, ok: bool)
    requires l.stage == Top
    ensures var n := Next(l, Go(tls, ok));
      && n.stage == Connect && n.seen == NOTHING
      && n.home.cmd == n.home.sub == None && !n.home.heartbeat && Here(n.home) == Here(l.home)
  {
  }

  /** A step that fails leads back to the top and counts; only a config that cannot be applied does not count. */
  lemma FailedStepRetries(l: Loop, tls: Tls)
    requires Sound(l.home) && (l.stage in {Ping, Fetch, Apply} || l.stage.Subscribe?)
    ensures var n := Next(l, Go(tls, false));
      n.stage == Top && if l.stage == Apply then n.home == l.home else FailureCounted(l.home, n.home)
  {
    hide AfterReconnectFailure, NextAddress, Text.TrimSpace;
    var h := if l.stage.Subscribe? then l.home else Ensure(l.home, tls);
    OperationsAreSound(l.home, tls, []);
    EnsureKeepsTheRest(l.home, tls);
    WhenItMoves(h);
    SameCandidates(l.home, h);
  }

  lemma EnsureKeepsTheRest(h: Home, tls: Tls)
    ensures var g := Ensure(h, tls);
      && Here(g) == Here(h) && g.nodes == h.nodes && g.failures == h.failures && g.discovery == h.discovery
      && g.seedHost == h.seedHost && g.seedPort == h.seedPort
  {
  }

  lemma SameCandidates(h: Home, g: Home)
    requires Here(g) == Here(h) && g.nodes == h.nodes && g.seedHost == h.seedHost && g.seedPort == h.seedPort
    ensures forall a :: NextAddress(g, a) <==> NextAddress(h, a)
  {
  }

  /** A client that cannot connect where it must counts a failure too. */
  lemma UnconnectedRetries(l: Loop, tls: Tls, ok: bool)
    requires Sound(l.home) && l.stage in {Connect, Ping, Fetch, OpenSub} && !Ensured(l.home, tls)
    ensures var n := Next(l, Go(tls, ok)); n.stage == Top && FailureCounted(l.home, n.home)
  {
    hide AfterReconnectFailure, NextAddress, Text.TrimSpace;
    var h := Ensure(l.home, tls);
    OperationsAreSound(l.home, tls, []);
    EnsureKeepsTheRest(l.home, tls);
    WhenItMoves(h);
    SameCandidates(l.home, h);
  }

  /**
   While listening, a timeout or a broken subscription ends the heartbeat and leads back to
   the top, the one moving on at once, the other counting as a failure; a pong forgets
   failures, pushed nodes are taken in, and none of these two ends anything.
   */
  lemma WhatEndsListening(l: Loop, e: Event)
    requires l.stage.Listen? && Sound(l.home)
    ensures var n := Next(l, e);
      match e
      case TimedOut => n.stage == Top && !n.home.heartbeat && n.home.failures == 0 && MovedOn(l.home, n.home)
      case Broken => n.stage == Top && !n.home.heartbeat && FailureCounted(l.home, n.home)
      case Pong => n == l.(home := l.home.(failures := 0))
      case NodesPushed(payload) =>
        n.stage == l.stage && n.home == l.home.(nodes := if l.home.discovery then Normalize(payload) else l.home.nodes)
      case ConfigPushed => n == l
      case _ => true
  {
    hide NextAddress, Text.TrimSpace, SwitchToNext, Normalize;
    var h := l.home.(heartbeat := false);
    WhenItMoves(h);
    SameCandidates(l.home, h);
    HeartbeatAside(h);
  }

  /** Failing over leaves the heartbeat flag alone. */
  lemma HeartbeatAside(h: Home)
    ensures AfterSubscriptionTimeout(h).heartbeat == h.heartbeat
    ensures AfterReconnectFailure(h).heartbeat == h.heartbeat
  {
  }

  /** With discovery on, a connected client asked for nodes moves to the first usable one of least load. */
  lemma DiscoveryMoves(l: Loop, tls: Tls, reply: seq<ClusterNode>, at: nat)
    requires l.stage == Discover && l.home.discovery && Ensured(l.home, tls) && FirstLeastLoaded(Cleaned(reply), at)
    ensures var n := Next(l, Nodes(tls, reply));
      && n.stage == Fetch && Here(n.home) == AddressOf(Cleaned(reply)[at])
      && n.home.nodes == Normalize(reply) && n.home.failures == 0
      && n.reported == l.reported + Reported(reply)
  {
    hide Refreshed, Cleaned, Normalize, Text.TrimSpace;
    EnsureKeepsTheRest(l.home, tls);
    RefreshMovesToBestNode(Ensure(l.home, tls), reply, at);
  }

  /** A cancelled context is seen at the top of the loop only; it ends the heartbeat and stops the loop for good. */
  lemma CancelStops(l: Loop, e: Event)
    ensures var n := Next(l, Cancel);
      if l.stage == Top then n.stage == Stopped && !n.home.heartbeat && Here(n.home) == Here(l.home) else n == l
    ensures l.stage == Stopped ==> Next(l, e).stage == Stopped && (!l.home.heartbeat ==> !Next(l, e).home.heartbeat)
  {
  }
}
