/**
 The home client's connection state: which node it talks to, when it fails over, and the
 subscriber loop that drives both.
 */
module HomeSpec {
  import opened Prelude
  import Text

  datatype Address = Address(host: string, port: int)

  datatype ClusterNode = ClusterNode(ip: string, port: int, clients: int)

  /** What `Client.mu` guards, and the heartbeat flag. A client is known by the address it was built for. */
  datatype Home = Home(
    enabled: bool, discovery: bool, seedHost: string, seedPort: int,
    host: string, port: int,
    cmd: Option<Address>, sub: Option<Address>,
    heartbeat: bool, nodes: seq<ClusterNode>, failures: int)

  const FAILOVER_THRESHOLD := 3

  function New(host: string, port: int, enabled: bool, discovery: bool): Home {
    Home(enabled, discovery, Text.TrimSpace(host), port, host, port, None, None, false, [], 0)
  }

  function Here(h: Home): Address {
    Address(Text.TrimSpace(h.host), h.port)
  }

  predicate Usable(a: Address) {
    a.host != "" && a.port > 0
  }

  function AddressOf(n: ClusterNode): Address {
    Address(Text.TrimSpace(n.ip), n.port)
  }

  // ----- connections -------------------------------------------------------------------------

  function CloseClients(h: Home): Home {
    h.(cmd := None, sub := None)
  }

  function Close(h: Home): Home {
    CloseClients(h).(heartbeat := false)
  }

  /** Whether TLS options can be built for the command and for the subscription client. */
  datatype Tls = Tls(cmd: bool, sub: bool)

  /** ensureClients: the state it leaves. */
  function Ensure(h: Home, tls: Tls): Home {
    if !h.enabled || !Usable(Here(h)) then h
    else if h.cmd == None && !tls.cmd then h
    else
      var g := if h.cmd == None then h.(cmd := Some(Here(h))) else h;
      if g.sub == None && tls.sub then g.(sub := Some(Here(h))) else g
  }

  /** Whether ensureClients returns without an error. */
  predicate Ensured(h: Home, tls: Tls) {
    h.enabled && Usable(Here(h)) && (h.cmd != None || tls.cmd) && (h.sub != None || tls.sub)
  }

  // ----- cluster nodes ---------------------------------------------------------------------------

  /** The nodes worth keeping, with a trimmed address and no negative load. */
  function Cleaned(nodes: seq<ClusterNode>): (r: seq<ClusterNode>)
    ensures forall i :: 0 <= i < |r| ==> Usable(AddressOf(r[i])) && r[i].clients >= 0
  {
    if nodes == [] then []
    else
      var n := nodes[|nodes| - 1];
      var before := Cleaned(nodes[..|nodes| - 1]);
      if !Usable(AddressOf(n)) then before
      else
        Text.TrimSpaceIdempotent(n.ip);
        before + [ClusterNode(Text.TrimSpace(n.ip), n.port, Max(n.clients, 0))]
  }

  /** sort.SliceStable by load, one element at a time. */
  function Insert(s: seq<ClusterNode>, n: ClusterNode): seq<ClusterNode> {
    if s != [] && n.clients < s[|s| - 1].clients then Insert(s[..|s| - 1], n) + [s[|s| - 1]] else s + [n]
  }

  function StableSort(s: seq<ClusterNode>): seq<ClusterNode> {
    if s == [] then [] else Insert(StableSort(s[..|s| - 1]), s[|s| - 1])
  }

  /** normalizeClusterNodes */
  function Normalize(nodes: seq<ClusterNode>): seq<ClusterNode> {
    StableSort(Cleaned(nodes))
  }

  // ----- switching ----------------------------------------------------------------------------

  /** switchToNodeLocked */
  predicate Switches(h: Home, n: ClusterNode) {
    Usable(AddressOf(n)) && AddressOf(n) != Here(h)
  }

  function SwitchTo(h: Home, n: ClusterNode): Home {
    if Switches(h, n) then CloseClients(h.(host := Text.TrimSpace(n.ip), port := n.port)) else h
  }

  function Candidates(h: Home): seq<ClusterNode> {
    if Text.TrimSpace(h.seedHost) != "" && h.seedPort > 0 then h.nodes + [ClusterNode(h.seedHost, h.seedPort, 0)]
    else h.nodes
  }

  /** The first usable candidate elsewhere. */
  function FirstElsewhere(cs: seq<ClusterNode>, here: Address): Option<ClusterNode> {
    if cs == [] then None
    else if Usable(AddressOf(cs[0])) && AddressOf(cs[0]) != here then Some(cs[0])
    else FirstElsewhere(cs[1..], here)
  }

  /** switchToNextNodeLocked */
  function SwitchToNext(h: Home): Home {
    match FirstElsewhere(Candidates(h), Here(h))
    case None => h
    case Some(n) => SwitchTo(h, n)
  }

  /** failoverAfterReconnectFailure */
  function AfterReconnectFailure(h: Home): Home {
    if !h.discovery then h.(failures := 0)
    else if h.failures + 1 < FAILOVER_THRESHOLD then h.(failures := h.failures + 1)
    else SwitchToNext(h.(failures := 0))
  }

  /** failoverAfterSubscriptionTimeout */
  function AfterSubscriptionTimeout(h: Home): Home {
    if !h.discovery then h.(failures := 0) else SwitchToNext(h.(failures := 0))
  }

  /** The locked part of refreshClusterNodes, for a reply that parsed. */
  function Refreshed(h: Home, reply: seq<ClusterNode>): Home {
    var nodes := Normalize(reply);
    if nodes == [] then h else SwitchTo(h.(nodes := nodes, failures := 0), nodes[0])
  }

  /** updateClusterNodesFromPayload, for a payload that parsed. */
  function Updated(h: Home, payload: seq<ClusterNode>): Home {
    if h.discovery then h.(nodes := Normalize(payload)) else h
  }

  // ----- the order of cluster nodes -------------------------------------------------------------

  predicate ByLoad(s: seq<ClusterNode>) {
    forall i, j :: 0 <= i < j < |s| ==> s[i].clients <= s[j].clients
  }

  /** The nodes with one load, in order. */
  function WithLoad(s: seq<ClusterNode>, load: int): seq<ClusterNode> {
    if s == [] then []
    else WithLoad(s[..|s| - 1], load) + if s[|s| - 1].clients == load then [s[|s| - 1]] else []
  }

  lemma {:induction false} InsertSorts(s: seq<ClusterNode>, n: ClusterNode)
    requires ByLoad(s)
    ensures ByLoad(Insert(s, n)) && |Insert(s, n)| == |s| + 1
    ensures Insert(s, n)[|s|].clients == if s == [] then n.clients else Max(n.clients, s[|s| - 1].clients)
  {
    if s != [] && n.clients < s[|s| - 1].clients { InsertSorts(s[..|s| - 1], n); }
  }

  lemma WithLoadSnoc(s: seq<ClusterNode>, n: ClusterNode, load: int)
    ensures WithLoad(s + [n], load) == WithLoad(s, load) + if n.clients == load then [n] else []
  {
    assert (s + [n])[..|s|] == s;
  }

  lemma {:induction false} InsertIsStable(s: seq<ClusterNode>, n: ClusterNode, load: int)
    ensures WithLoad(Insert(s, n), load) == WithLoad(s, load) + if n.clients == load then [n] else []
    decreases |s|
  {
    if s != [] && n.clients < s[|s| - 1].clients {
      var front, last := s[..|s| - 1], s[|s| - 1];
      InsertIsStable(front, n, load);
      WithLoadSnoc(Insert(front, n), last, load);
    } else {
      WithLoadSnoc(s, n, load);
    }
  }

  /** Normalised nodes are the usable ones, ordered by load, equal loads in the order reported. */
  lemma {:induction false} SortIsStable(s: seq<ClusterNode>, load: int)
    ensures ByLoad(StableSort(s)) && |StableSort(s)| == |s|
    ensures WithLoad(StableSort(s), load) == WithLoad(s, load)
  {
    if s != [] {
      SortIsStable(s[..|s| - 1], load);
      InsertSorts(StableSort(s[..|s| - 1]), s[|s| - 1]);
      InsertIsStable(StableSort(s[..|s| - 1]), s[|s| - 1], load);
    }
  }

  /** `at` is where the first least loaded node stands. */
  predicate FirstLeastLoaded(s: seq<ClusterNode>, at: nat) {
    && at < |s|
    && (forall j :: 0 <= j < |s| ==> s[at].clients <= s[j].clients)
    && (forall j :: 0 <= j < at ==> s[at].clients < s[j].clients)
  }

  lemma {:induction false} FirstWithLoad(s: seq<ClusterNode>, at: nat)
    requires at < |s| && forall j :: 0 <= j < at ==> s[j].clients != s[at].clients
    ensures WithLoad(s, s[at].clients) != [] && WithLoad(s, s[at].clients)[0] == s[at]
    decreases |s|
  {
    var front := s[..|s| - 1];
    if at < |front| {
      FirstWithLoad(front, at);
    } else {
      NoneWithLoad(front, s[at].clients);
    }
  }

  lemma {:induction false} NoneWithLoad(s: seq<ClusterNode>, load: int)
    ensures WithLoad(s, load) == [] <==> forall j :: 0 <= j < |s| ==> s[j].clients != load
    decreases |s|
  {
    if s != [] {
      NoneWithLoad(s[..|s| - 1], load);
      assert s == s[..|s| - 1] + [s[|s| - 1]];
    }
  }

  /** A refresh leaves the client at the first usable node reported with the least load. */
  lemma RefreshMovesToBestNode(h: Home, reply: seq<ClusterNode>, at: nat)
    requires FirstLeastLoaded(Cleaned(reply), at)
    ensures Here(Refreshed(h, reply)) == AddressOf(Cleaned(reply)[at])
    ensures Refreshed(h, reply).failures == 0 && Refreshed(h, reply).nodes == Normalize(reply)
  {
    hide Normalize, Cleaned;
    BestNodeIsFirstLeastLoaded(reply, at);
    Text.TrimSpaceIdempotent(Cleaned(reply)[at].ip);
  }

  lemma BestNodeIsFirstLeastLoaded(reply: seq<ClusterNode>, at: nat)
    requires FirstLeastLoaded(Cleaned(reply), at)
    ensures Normalize(reply) != [] && Normalize(reply)[0] == Cleaned(reply)[at]
  {
    hide Cleaned, StableSort, WithLoad;
    var c, s := Cleaned(reply), StableSort(Cleaned(reply));
    var load := c[at].clients;
    SortIsStable(c, load);
    FirstWithLoad(c, at);
    SortIsStable(c, s[0].clients);
    FirstWithLoad(s, 0);
    NoneWithLoad(c, s[0].clients);
    NoneWithLoad(s, load);
  }

  lemma {:induction false} InsertKeepsMembers(s: seq<ClusterNode>, n: ClusterNode)
    ensures multiset(Insert(s, n)) == multiset(s) + multiset{n}
    decreases |s|
  {
    if s != [] && n.clients < s[|s| - 1].clients {
      InsertKeepsMembers(s[..|s| - 1], n);
      assert s == s[..|s| - 1] + [s[|s| - 1]];
    }
  }

  lemma {:induction false} SortKeepsMembers(s: seq<ClusterNode>)
    ensures multiset(StableSort(s)) == multiset(s)
  {
    if s != [] {
      SortKeepsMembers(s[..|s| - 1]);
      InsertKeepsMembers(StableSort(s[..|s| - 1]), s[|s| - 1]);
      assert s == s[..|s| - 1] + [s[|s| - 1]];
    }
  }

  /** Every normalised node is one that was reported, at a usable address. */
  lemma NormalizedAreUsable(reply: seq<ClusterNode>, i: nat)
    requires i < |Normalize(reply)|
    ensures Usable(AddressOf(Normalize(reply)[i]))
    ensures AddressOf(Normalize(reply)[i]) in Reported(reply)
  {
    SortKeepsMembers(Cleaned(reply));
    var n := Normalize(reply)[i];
    assert n in multiset(Normalize(reply));
    assert n in Cleaned(reply);
    var k :| 0 <= k < |Cleaned(reply)| && Cleaned(reply)[k] == n;
    CleanedWereReported(reply, k);
  }

  function Reported(reply: seq<ClusterNode>): set<Address> {
    set i | 0 <= i < |reply| && Usable(AddressOf(reply[i])) :: AddressOf(reply[i])
  }

  lemma {:induction false} CleanedWereReported(reply: seq<ClusterNode>, k: nat)
    requires k < |Cleaned(reply)|
    ensures AddressOf(Cleaned(reply)[k]) in Reported(reply)
    decreases |reply|
  {
    var front, n := reply[..|reply| - 1], reply[|reply| - 1];
    if k < |Cleaned(front)| {
      CleanedWereReported(front, k);
      assert Cleaned(reply)[k] == Cleaned(front)[k];
      var i :| 0 <= i < |front| && AddressOf(front[i]) == AddressOf(Cleaned(front)[k]) && Usable(AddressOf(front[i]));
      assert reply[i] == front[i];
    } else {
      Text.TrimSpaceIdempotent(n.ip);
      assert AddressOf(Cleaned(reply)[k]) == AddressOf(n);
    }
  }

  /** The reported nodes with a host and a port and that many clients, in order; a negative number counts as none. */
  function ReportedWithLoad(reply: seq<ClusterNode>, load: int): seq<ClusterNode> {
    if reply == [] then []
    else
      var n := reply[|reply| - 1];
      var here := Text.TrimSpace(n.ip) != "" && n.port > 0 && (n.clients == load >= 0 || n.clients < 0 == load);
      ReportedWithLoad(reply[..|reply| - 1], load)
        + if here then [ClusterNode(Text.TrimSpace(n.ip), n.port, load)] else []
  }

  /** The normalised list is ordered by load, and for each load holds exactly those nodes, in that order. */
  lemma NormalizedExactly(reply: seq<ClusterNode>, load: int)
    ensures ByLoad(Normalize(reply)) && WithLoad(Normalize(reply), load) == ReportedWithLoad(reply, load)
  {
    SortIsStable(Cleaned(reply), load);
    CleanedWithLoad(reply, load);
  }

  lemma {:induction false} CleanedWithLoad(reply: seq<ClusterNode>, load: int)
    ensures WithLoad(Cleaned(reply), load) == ReportedWithLoad(reply, load)
  {
    hide Text.TrimSpace;
    if reply != [] {
      var front, n := reply[..|reply| - 1], reply[|reply| - 1];
      CleanedWithLoad(front, load);
      WithLoadSnoc(Cleaned(front), ClusterNode(Text.TrimSpace(n.ip), n.port, Max(n.clients, 0)), load);
    }
  }
}
