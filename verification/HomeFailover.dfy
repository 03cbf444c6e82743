/** What failover guarantees, one call at a time and over runs of failures. */
module HomeFailover {
  import opened Prelude
  import opened HomeSpec
  import Text

  /** Facts every operation keeps. */
  ghost predicate Sound(h: Home) {
    && 0 <= h.failures < FAILOVER_THRESHOLD
    && (h.cmd != None ==> h.cmd == Some(Here(h)) && Usable(Here(h)))
    && (h.sub != None ==> h.sub == Some(Here(h)) && Usable(Here(h)))
  }

  lemma {:induction false} FirstElsewhereIsFirst(cs: seq<ClusterNode>, here: Address)
    ensures FirstElsewhere(cs, here) == None <==>
      forall i :: 0 <= i < |cs| && Usable(AddressOf(cs[i])) ==> AddressOf(cs[i]) == here
    ensures forall n :: FirstElsewhere(cs, here) == Some(n) ==> n in cs && Usable(AddressOf(n)) && AddressOf(n) != here
  {
    if cs != [] && !(Usable(AddressOf(cs[0])) && AddressOf(cs[0]) != here) {
      FirstElsewhereIsFirst(cs[1..], here);
    }
  }

  /**
   A switch lands on the node asked for, drops both clients, and happens unless the node is unusable or already
   current.
   */
  lemma SwitchLands(h: Home, n: ClusterNode)
    ensures Switches(h, n) ==> Here(SwitchTo(h, n)) == AddressOf(n) && SwitchTo(h, n).cmd == SwitchTo(h, n).sub == None
    ensures Switches(h, n) ==> Usable(Here(SwitchTo(h, n))) && Here(SwitchTo(h, n)) != Here(h)
    ensures !Switches(h, n) ==> SwitchTo(h, n) == h
  {
    Text.TrimSpaceIdempotent(n.ip);
  }

  /**
   Moving on changes the address exactly when some candidate is usable and elsewhere, and then to such a
   candidate.
   */
  lemma NextLands(h: Home)
    ensures Here(SwitchToNext(h)) != Here(h) <==>
      exists i :: 0 <= i < |Candidates(h)| && Usable(AddressOf(Candidates(h)[i]))
        && AddressOf(Candidates(h)[i]) != Here(h)
    ensures SwitchToNext(h) != h ==>
      Here(SwitchToNext(h)) != Here(h) && Usable(Here(SwitchToNext(h)))
      && exists i :: 0 <= i < |Candidates(h)| && AddressOf(Candidates(h)[i]) == Here(SwitchToNext(h))
  {
    FirstElsewhereIsFirst(Candidates(h), Here(h));
    match FirstElsewhere(Candidates(h), Here(h)) {
      case None =>
      case Some(n) => SwitchLands(h, n);
    }
  }

  // ----- soundness of every operation ---------------------------------------------------------------

  lemma SwitchIsSound(h: Home, n: ClusterNode)
    requires Sound(h)
    ensures Sound(SwitchTo(h, n))
  {
    SwitchLands(h, n);
  }

  lemma NextIsSound(h: Home)
    requires Sound(h)
    ensures Sound(SwitchToNext(h))
  {
    match FirstElsewhere(Candidates(h), Here(h)) {
      case None =>
      case Some(n) => SwitchIsSound(h, n);
    }
  }

  /** Failures stay below the threshold and live clients match the address, whatever is called. */
  lemma OperationsAreSound(h: Home, tls: Tls, reply: seq<ClusterNode>)
    requires Sound(h)
    ensures Sound(Close(h)) && Sound(Ensure(h, tls))
    ensures Sound(AfterReconnectFailure(h)) && Sound(AfterSubscriptionTimeout(h))
    ensures Sound(Refreshed(h, reply)) && Sound(Updated(h, reply))
  {
    hide AfterReconnectFailure, AfterSubscriptionTimeout, Refreshed, Updated;
    FailuresAreSound(h);
    RefreshesAreSound(h, reply);
  }

  lemma FailuresAreSound(h: Home)
    requires Sound(h)
    ensures Sound(AfterReconnectFailure(h)) && Sound(AfterSubscriptionTimeout(h))
  {
    hide SwitchToNext;
    NextIsSound(h.(failures := 0));
  }

  lemma RefreshesAreSound(h: Home, reply: seq<ClusterNode>)
    requires Sound(h)
    ensures Sound(Refreshed(h, reply)) && Sound(Updated(h, reply))
  {
    hide SwitchTo, Normalize;
    var nodes := Normalize(reply);
    if nodes != [] { SwitchIsSound(h.(nodes := nodes, failures := 0), nodes[0]); }
  }

  /** ensureClients keeps the address; on success both clients are up, at that address. */
  lemma EnsuredMeansConnected(h: Home, tls: Tls)
    requires Sound(h)
    ensures Here(Ensure(h, tls)) == Here(h)
    ensures Ensured(h, tls) <==>
      h.enabled && Ensure(h, tls).cmd == Ensure(h, tls).sub == Some(Here(h)) && Usable(Here(h))
  {
  }

  // ----- runs of failures ------------------------------------------------------------------------------

  /** n reconnect failures in a row. */
  function Failing(h: Home, n: nat): Home {
    if n == 0 then h else AfterReconnectFailure(Failing(h, n - 1))
  }

  /** n moves to the next node. */
  function Moving(h: Home, n: nat): Home {
    if n == 0 then h else SwitchToNext(Moving(h, n - 1))
  }

  lemma NextKeepsRest(h: Home)
    ensures SwitchToNext(h).failures == h.failures && SwitchToNext(h).discovery == h.discovery
    ensures Candidates(SwitchToNext(h)) == Candidates(h)
  {
  }

  /** Counting and moving commute: the k-th failure moves on exactly when it completes another three. */
  lemma {:induction false} EveryThirdFailureMoves(h: Home, n: nat)
    requires h.discovery && 0 <= h.failures < 3
    ensures Failing(h, n) == Moving(h, (h.failures + n) / 3).(failures := (h.failures + n) % 3)
  {
    hide SwitchToNext;
    if n > 0 {
      EveryThirdFailureMoves(h, n - 1);
      var t := h.failures + n - 1;
      CountsUp(t);
      MovingKeepsRest(h, t / FAILOVER_THRESHOLD);
      NextIgnoresFailures(Moving(h, t / FAILOVER_THRESHOLD), 0);
    }
  }

  lemma CountsUp(t: nat)
    ensures (t + 1) / FAILOVER_THRESHOLD == t / FAILOVER_THRESHOLD + if t % FAILOVER_THRESHOLD == 2 then 1 else 0
    ensures (t + 1) % FAILOVER_THRESHOLD == if t % FAILOVER_THRESHOLD == 2 then 0 else t % FAILOVER_THRESHOLD + 1
  {
  }

  lemma NextIgnoresFailures(h: Home, f: int)
    ensures SwitchToNext(h.(failures := f)) == SwitchToNext(h).(failures := f)
  {
  }

  lemma {:induction false} MovingKeepsRest(h: Home, n: nat)
    ensures Moving(h, n).failures == h.failures && Moving(h, n).discovery == h.discovery
    ensures Candidates(Moving(h, n)) == Candidates(h)
  {
    hide SwitchToNext, Candidates;
    if n > 0 { MovingKeepsRest(h, n - 1); NextKeepsRest(Moving(h, n - 1)); }
  }

  /** Away from a usable seed with discovery on, a third failure always leaves. */
  lemma SeedIsAlwaysAWayOut(h: Home)
    requires h.discovery && h.failures + 1 >= FAILOVER_THRESHOLD
    requires Usable(Address(Text.TrimSpace(h.seedHost), h.seedPort))
      && Here(h) != Address(Text.TrimSpace(h.seedHost), h.seedPort)
    ensures Here(AfterReconnectFailure(h)) != Here(h) && AfterReconnectFailure(h).failures == 0
  {
    var g := h.(failures := 0);
    var cs := Candidates(g);
    assert AddressOf(cs[|cs| - 1]) == Address(Text.TrimSpace(h.seedHost), h.seedPort);
    NextLands(g);
  }

  /** Without discovery no failure moves the client. */
  lemma {:induction false} NoDiscoveryStaysPut(h: Home, n: nat)
    requires !h.discovery
    ensures Here(Failing(h, n)) == Here(h) && Failing(h, n).cmd == h.cmd && Failing(h, n).sub == h.sub
    ensures !Failing(h, n).discovery && AfterSubscriptionTimeout(h) == h.(failures := 0)
  {
    if n > 0 { NoDiscoveryStaysPut(h, n - 1); }
  }

  /**
   Failover does not tour the cluster: with the node list unchanged, every other move
   returns to the same node, so a third node is never tried.
   */
  lemma MovesAlternate(h: Home)
    ensures Here(Moving(h, 3)) == Here(Moving(h, 1))
  {
    MoveGoes(h);
    MoveGoes(Moving(h, 1));
    MoveGoes(Moving(h, 2));
    FirstTwo(Candidates(h), Here(h));
  }

  lemma MoveGoes(h: Home)
    ensures Here(SwitchToNext(h)) == Goes(Candidates(h), Here(h)) && Candidates(SwitchToNext(h)) == Candidates(h)
  {
    FirstElsewhereIsFirst(Candidates(h), Here(h));
    NextLands(h);
    if FirstElsewhere(Candidates(h), Here(h)) != None {
      SwitchLands(h, FirstElsewhere(Candidates(h), Here(h)).value);
    }
  }

  function Goes(cs: seq<ClusterNode>, here: Address): Address {
    match FirstElsewhere(cs, here) case None => here case Some(n) => AddressOf(n)
  }

  /** Going three times is going once. */
  lemma {:induction false} FirstTwo(cs: seq<ClusterNode>, here: Address)
    ensures Goes(cs, Goes(cs, Goes(cs, here))) == Goes(cs, here)
  {
    if cs != [] {
      if !Usable(AddressOf(cs[0])) {
        FirstTwo(cs[1..], here);
      } else {
        FirstElsewhereIsFirst(cs[1..], AddressOf(cs[0]));
      }
    }
  }

  // ----- where a move goes -----------------------------------------------------------------------------

  /** The first usable reported node elsewhere, or else the seed. */
  ghost predicate NextAddress(h: Home, a: Address) {
    || (exists i :: 0 <= i < |h.nodes| && a == AddressOf(h.nodes[i]) && Usable(a) && a != Here(h)
          && forall j :: 0 <= j < i ==> !Usable(AddressOf(h.nodes[j])) || AddressOf(h.nodes[j]) == Here(h))
    || ((forall j :: 0 <= j < |h.nodes| ==> !Usable(AddressOf(h.nodes[j])) || AddressOf(h.nodes[j]) == Here(h))
        && a == Address(Text.TrimSpace(h.seedHost), h.seedPort) && Usable(a) && a != Here(h))
  }

  lemma {:induction false} FirstOfAll(cs: seq<ClusterNode>, here: Address)
    ensures match FirstElsewhere(cs, here)
      case None => forall j :: 0 <= j < |cs| ==> !Usable(AddressOf(cs[j])) || AddressOf(cs[j]) == here
      case Some(n) =>
        exists i :: 0 <= i < |cs| && cs[i] == n && Usable(AddressOf(n)) && AddressOf(n) != here
                    && forall j :: 0 <= j < i ==> !Usable(AddressOf(cs[j])) || AddressOf(cs[j]) == here
  {
    if cs != [] && !(Usable(AddressOf(cs[0])) && AddressOf(cs[0]) != here) {
      FirstOfAll(cs[1..], here);
      match FirstElsewhere(cs, here) {
        case None =>
          forall j | 0 <= j < |cs|
            ensures !Usable(AddressOf(cs[j])) || AddressOf(cs[j]) == here
          {
            if j > 0 { assert cs[j] == cs[1..][j - 1]; }
          }
        case Some(n) =>
          var i :| 0 <= i < |cs| - 1 && cs[1..][i] == n
                   && forall j :: 0 <= j < i ==> !Usable(AddressOf(cs[1..][j])) || AddressOf(cs[1..][j]) == here;
          assert cs[i + 1] == n;
          forall j | 0 <= j < i + 1
            ensures !Usable(AddressOf(cs[j])) || AddressOf(cs[j]) == here
          {
            if j > 0 { assert cs[j] == cs[1..][j - 1]; }
          }
      }
    }
  }

  /** Moving on goes to the first usable reported node elsewhere, else to the seed, else nowhere. */
  lemma NextGoes(h: Home)
    ensures if SwitchToNext(h) == h then forall a :: !NextAddress(h, a)
      else NextAddress(h, Here(SwitchToNext(h))) && SwitchToNext(h).cmd == SwitchToNext(h).sub == None
    ensures SwitchToNext(h).nodes == h.nodes && SwitchToNext(h).failures == h.failures
  {
    hide Text.TrimSpace, FirstElsewhere, SwitchTo;
    FirstOfAll(Candidates(h), Here(h));
    SwitchKeepsTheRest(h);
    match FirstElsewhere(Candidates(h), Here(h)) {
      case None => NowhereToGo(h);
      case Some(n) =>
        SwitchLands(h, n);
        var i :| 0 <= i < |Candidates(h)| && Candidates(h)[i] == n
                 && forall j :: 0 <= j < i ==>
                      !Usable(AddressOf(Candidates(h)[j])) || AddressOf(Candidates(h)[j]) == Here(h);
        forall j | 0 <= j < |h.nodes|
          ensures Candidates(h)[j] == h.nodes[j]
        {
        }
    }
  }

  lemma SwitchKeepsTheRest(h: Home)
    ensures forall n :: SwitchTo(h, n).nodes == h.nodes && SwitchTo(h, n).failures == h.failures
  {
  }

  lemma NowhereToGo(h: Home)
    requires FirstElsewhere(Candidates(h), Here(h)) == None
    ensures forall a :: !NextAddress(h, a)
  {
    FirstOfAll(Candidates(h), Here(h));
    var cs := Candidates(h);
    forall j | 0 <= j < |h.nodes|
      ensures !Usable(AddressOf(h.nodes[j])) || AddressOf(h.nodes[j]) == Here(h)
    {
      assert cs[j] == h.nodes[j];
    }
    if cs != h.nodes { assert cs[|h.nodes|] == ClusterNode(h.seedHost, h.seedPort, 0); }
  }

  /**
   With discovery on, a subscription timeout moves at once, and so does the third failure in
   a row; a failure before that only counts. Without discovery nothing moves.
   */
  lemma WhenItMoves(h: Home)
    requires Sound(h)
    ensures var t := AfterSubscriptionTimeout(h);
      && t.failures == 0 && t.nodes == h.nodes
      && (if h.discovery && exists a :: NextAddress(h, a) then NextAddress(h, Here(t)) else Here(t) == Here(h))
    ensures var f := AfterReconnectFailure(h);
      if h.discovery && h.failures < 2 then f == h.(failures := h.failures + 1)
      else
        && f.failures == 0 && f.nodes == h.nodes
        && (if h.discovery && exists a :: NextAddress(h, a) then NextAddress(h, Here(f)) else Here(f) == Here(h))
  {
    var g := h.(failures := 0);
    NextGoes(g);
    forall a
      ensures NextAddress(g, a) <==> NextAddress(h, a)
    {
    }
  }

  /** When enabled, usable and with TLS options at hand, both clients end up at the current address. */
  lemma EnsureConnects(h: Home, tls: Tls)
    requires Sound(h)
    ensures h.enabled && Usable(Here(h)) && tls.cmd && tls.sub ==>
      Ensure(h, tls).cmd == Ensure(h, tls).sub == Some(Here(h))
    ensures !h.enabled || !Usable(Here(h)) ==> Ensure(h, tls) == h
  {
  }
}
