/** The home client: every method is one lock-held region. */
module HomeClient {
  import opened Prelude
  import opened HomeSpec
  import Text

  class Client {
    const enabled: bool
    const discovery: bool
    const seedHost: string
    const seedPort: int
    var host: string
    var port: int
    var cmd: Option<Address>
    var sub: Option<Address>
    var heartbeatOK: bool
    var clusterNodes: seq<ClusterNode>
    var reconnectFailures: int

    ghost function View(): Home
      reads this
    {
      Home(enabled, discovery, seedHost, seedPort, host, port, cmd, sub, heartbeatOK, clusterNodes, reconnectFailures)
    }

    constructor (host: string, port: int, enabled: bool, discovery: bool)
      ensures View() == New(host, port, enabled, discovery)
    {
      this.enabled, this.discovery := enabled, discovery;
      seedHost, seedPort := Text.TrimSpace(host), port;
      this.host, this.port := host, port;
      cmd, sub, heartbeatOK, clusterNodes, reconnectFailures := None, None, false, [], 0;
    }

    method Close()
      modifies this
      ensures View() == HomeSpec.Close(old(View()))
    {
      heartbeatOK := false;
      CloseClientsLocked();
    }

    method CloseClientsLocked()
      modifies this
      ensures View() == CloseClients(old(View()))
    {
      cmd, sub := None, None;
    }

    /** addrLocked */
    method AddrLocked() returns (addr: Option<Address>)
      ensures addr == if Usable(Here(View())) then Some(Here(View())) else None
    {
      var trimmed := Text.TrimSpace(host);
      if trimmed == "" || port <= 0 { return None; }
      addr := Some(Address(trimmed, port));
    }

    /** ensureClients; `tls` says which TLS options can be built. */
    method EnsureClients(tls: Tls) returns (ok: bool)
      modifies this
      ensures View() == Ensure(old(View()), tls) && ok == Ensured(old(View()), tls)
    {
      if !enabled { return false; }
      var addr := AddrLocked();
      if addr == None { return false; }
      if cmd == None {
        if !tls.cmd { return false; }
        cmd := addr;
      }
      if sub == None {
        if !tls.sub { return false; }
        sub := addr;
      }
      ok := true;
    }

    /** switchToNodeLocked */
    method SwitchToNodeLocked(node: ClusterNode) returns (switched: bool)
      modifies this
      ensures View() == SwitchTo(old(View()), node) && switched == Switches(old(View()), node)
    {
      var target := Text.TrimSpace(node.ip);
      if target == "" || node.port <= 0 { return false; }
      if Text.TrimSpace(host) == target && port == node.port { return false; }
      host, port := target, node.port;
      CloseClientsLocked();
      switched := true;
    }

    /** switchToNextNodeLocked */
    method SwitchToNextNodeLocked() returns (switched: bool)
      modifies this
      ensures View() == SwitchToNext(old(View())) && switched == (Here(View()) != old(Here(View())))
    {
      var candidates := clusterNodes;
      if Text.TrimSpace(seedHost) != "" && seedPort > 0 {
        candidates := candidates + [ClusterNode(seedHost, seedPort, 0)];
      }
      ghost var here := Here(View());
      assert candidates[0..] == candidates;
      for i := 0 to |candidates|
        invariant View() == old(View())
        invariant FirstElsewhere(candidates, here) == FirstElsewhere(candidates[i..], here)
      {
        var node := candidates[i];
        assert candidates[i..][1..] == candidates[i + 1..];
        var target := Text.TrimSpace(node.ip);
        if target != "" && node.port > 0 && !(target == Text.TrimSpace(host) && node.port == port) {
          Text.TrimSpaceIdempotent(node.ip);
          switched := SwitchToNodeLocked(ClusterNode(target, node.port, 0));
          return;
        }
      }
      switched := false;
    }

    /** failoverAfterReconnectFailure */
    method FailoverAfterReconnectFailure() returns (switched: bool)
      modifies this
      ensures View() == AfterReconnectFailure(old(View())) && switched == (Here(View()) != old(Here(View())))
    {
      if !discovery {
        reconnectFailures := 0;
        return false;
      }
      reconnectFailures := reconnectFailures + 1;
      if reconnectFailures < FAILOVER_THRESHOLD { return false; }
      reconnectFailures := 0;
      switched := SwitchToNextNodeLocked();
    }

    /** failoverAfterSubscriptionTimeout */
    method FailoverAfterSubscriptionTimeout() returns (switched: bool)
      modifies this
      ensures View() == AfterSubscriptionTimeout(old(View())) && switched == (Here(View()) != old(Here(View())))
    {
      reconnectFailures := 0;
      if !discovery { return false; }
      switched := SwitchToNextNodeLocked();
    }

    /** The locked part of refreshClusterNodes. */
    method RefreshClusterNodes(reply: seq<ClusterNode>) returns (switched: bool)
      modifies this
      ensures View() == Refreshed(old(View()), reply) && switched == (Here(View()) != old(Here(View())))
    {
      var nodes := NormalizeClusterNodes(reply);
      if nodes == [] { return false; }
      clusterNodes, reconnectFailures := nodes, 0;
      Text.TrimSpaceIdempotent(nodes[0].ip);
      switched := SwitchToNodeLocked(nodes[0]);
    }

    /** updateClusterNodesFromPayload */
    method UpdateClusterNodes(payload: seq<ClusterNode>)
      modifies this
      ensures View() == Updated(old(View()), payload)
    {
      if !discovery { return; }
      clusterNodes := NormalizeClusterNodes(payload);
    }

    method ResetReconnectFailures()
      modifies this
      ensures View() == old(View()).(failures := 0)
    {
      reconnectFailures := 0;
    }
  }

  /** normalizeClusterNodes */
  method NormalizeClusterNodes(nodes: seq<ClusterNode>) returns (r: seq<ClusterNode>)
    ensures r == Normalize(nodes)
    ensures ByLoad(r) && forall load :: WithLoad(r, load) == WithLoad(Cleaned(nodes), load)
  {
    var kept: seq<ClusterNode> := [];
    for i := 0 to |nodes|
      invariant kept == Cleaned(nodes[..i])
    {
      assert nodes[..i + 1][..i] == nodes[..i];
      var ip := Text.TrimSpace(nodes[i].ip);
      Text.TrimSpaceIdempotent(nodes[i].ip);
      if ip != "" && nodes[i].port > 0 {
        kept := kept + [ClusterNode(ip, nodes[i].port, if nodes[i].clients < 0 then 0 else nodes[i].clients)];
      }
    }
    assert nodes[..|nodes|] == nodes;
    r := StableSort(kept);
    SortIsStable(kept, 0);
    forall load
      ensures WithLoad(r, load) == WithLoad(kept, load)
    {
      SortIsStable(kept, load);
    }
  }
}
