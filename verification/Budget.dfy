/**
 The MTU budget: how many hops the longest route has, what that leaves for a KCP packet, and
 why every packet then fits whatever route it takes.
 */
module Budget {
  import opened Relay
  import opened RouteSpec
  import opened RouteUpdate
  import opened Wire

  const ENDPOINT_MESSAGE_OVERHEAD: nat := 17

  // ------------------------------------------------------------------ the longest route

  /** Edges of the configured graph, each beginning where the one before it ends. */
  predicate Way(g: GraphConfig, p: seq<EdgeId>, u: nat, v: nat) {
    if p == [] then u == v
    else
      && p[0].node == u && u < |g| && p[0].edge < |g[u]|
      && Way(g, p[1..], g[u][p[0].edge].next, v)
  }

  /** The most hops that the first `k` edges of a node can lead to. */
  function LongestOver(g: GraphConfig, u: nat, k: nat): nat
    requires ConfigOk(g) && u < |g| && k <= |g[u]|
    decreases |g| - u, k
  {
    if k == 0 then 0
    else
      var before, through := LongestOver(g, u, k - 1), 1 + Longest(g, g[u][k - 1].next);
      if before > through then before else through
  }

  function Longest(g: GraphConfig, u: nat): nat
    requires ConfigOk(g) && u < |g|
    decreases |g| - u, |g[u]| + 1
  {
    LongestOver(g, u, |g[u]|)
  }

  lemma {:induction false} LongestOverEach(g: GraphConfig, u: nat, k: nat, j: nat)
    requires ConfigOk(g) && u < |g| && j < k <= |g[u]|
    ensures LongestOver(g, u, k) >= 1 + Longest(g, g[u][j].next)
  {
    if j >= k - 1 {
    } else {
      LongestOverEach(g, u, k - 1, j);
    }
  }

  lemma {:induction false} LongestOverSome(g: GraphConfig, u: nat, k: nat) returns (j: nat)
    requires ConfigOk(g) && u < |g| && 0 < k <= |g[u]|
    ensures j < k && LongestOver(g, u, k) == 1 + Longest(g, g[u][j].next)
  {
    if k == 1 || LongestOver(g, u, k - 1) <= 1 + Longest(g, g[u][k - 1].next) {
      j := k - 1;
    } else {
      j := LongestOverSome(g, u, k - 1);
    }
  }

  /** No way to the last node has more hops. */
  lemma {:induction false} LongestIsBound(g: GraphConfig, p: seq<EdgeId>, u: nat, v: nat)
    requires ConfigOk(g) && Way(g, p, u, v) && u < |g|
    ensures |p| <= Longest(g, u)
    decreases |p|
  {
    if p == [] {
    } else {
      LongestIsBound(g, p[1..], g[u][p[0].edge].next, v);
      LongestOverEach(g, u, |g[u]|, p[0].edge);
    }
  }

  /** Some way to the last node has exactly that many. */
  lemma {:induction false} LongestIsReached(g: GraphConfig, u: nat) returns (p: seq<EdgeId>)
    requires ConfigOk(g) && u < |g|
    ensures Way(g, p, u, |g| - 1) && |p| == Longest(g, u)
    decreases |g| - u
  {
    if g[u] == [] {
      p := [];
    } else {
      var j := LongestOverSome(g, u, |g[u]|);
      var rest := LongestIsReached(g, g[u][j].next);
      p := [EdgeId(u, j)] + rest;
    }
  }

  /** The planner's graph has the roads of the configured one. */
  ghost predicate Roads(g: GraphConfig, nodes: Graph) {
    && |nodes| == |g|
    && (forall u :: 0 <= u < |g| ==> |nodes[u]| == |g[u]|)
    && forall id :: IsEdge(nodes, id) ==>
         At(nodes, id).next == g[id.node][id.edge].next && At(nodes, id).channelId == g[id.node][id.edge].channelId
  }

  lemma {:induction false} ConnectedIsWay(g: GraphConfig, nodes: Graph, p: seq<EdgeId>, u: nat)
    requires Roads(g, nodes) && Connected(nodes, p, u) && p != []
    ensures exists v :: Way(g, p, u, v)
    decreases |p|
  {
    var next := At(nodes, p[0]).next;
    if |p| == 1 {
      assert Way(g, p[1..], next, next);
      assert Way(g, p, u, next);
    } else {
      ConnectedIsWay(g, nodes, p[1..], next);
      var v :| Way(g, p[1..], next, v);
      assert Way(g, p, u, v);
    }
  }

  /** Every route of the planner has at least one hop and at most the longest number. */
  lemma RouteHops(g: GraphConfig, nodes: Graph, elapsedMs: nat, p: seq<EdgeId>)
    requires ConfigOk(g) && Roads(g, nodes) && Path(nodes, elapsedMs, p, |nodes| - 1)
    ensures 1 <= |p| <= Longest(g, 0)
  {
    PathConnects(nodes, elapsedMs, p, |nodes| - 1, 0);
    assert p[0..] == p;
    ConnectedIsWay(g, nodes, p, 0);
    var v :| Way(g, p, 0, v);
    LongestIsBound(g, p, 0, v);
  }

  /** Computes the longest number of hops backwards over the topological order. */
  method LongestHops(g: GraphConfig) returns (hops: nat)
    requires ConfigOk(g)
    ensures hops == Longest(g, 0) && hops >= 1
  {
    var longest := new nat[|g|](_ => 0);
    LastHasNoEdges(g);
    for node := |g| - 1 downto 0
      invariant forall u :: 0 <= u < node ==> longest[u] == 0
      invariant forall u :: node <= u < |g| ==> longest[u] == Longest(g, u)
    {
      for k := 0 to |g[node]|
        invariant longest[node] == LongestOver(g, node, k)
        invariant forall u :: 0 <= u < node ==> longest[u] == 0
        invariant forall u :: node < u < |g| ==> longest[u] == Longest(g, u)
      {
        var through := longest[g[node][k].next] + 1;
        if through > longest[node] { longest[node] := through; }
      }
    }
    hops := longest[0];
    LongestOverEach(g, 0, |g[0]|, 0);
  }

  // ------------------------------------------------------------------ the budget

  /** What is set aside of every packet, whatever its route: sealing, envelope, reserve, plan. */
  function ScheduledOverhead(hops: nat, reserve: nat): nat
    requires hops >= 1
  {
    TRANSPORT_PACKET_OVERHEAD + ENVELOPE_FIXED_OVERHEAD + reserve + (hops - 1) * 2
  }

  /** The bytes of a packet before padding, on a route of `hops` hops. */
  function UnpaddedLen(hops: nat, payload: nat): nat
    requires hops >= 1
  {
    TRANSPORT_PACKET_OVERHEAD + ENVELOPE_FIXED_OVERHEAD + (hops - 1) * 2 + payload
  }

  /** The room for padding; the original would panic on a division by zero if there were none. */
  function Available(mtu: nat, hops: nat, payload: nat): int
    requires hops >= 1
  {
    var room := mtu - UnpaddedLen(hops, payload);
    if room < 255 then room else 255
  }

  /** The KCP MTU that the endpoint derives from its configuration. */
  function KcpMtu(mtu: nat, longest: nat, reserve: nat): int
    requires longest >= 1
  {
    mtu - ScheduledOverhead(longest, reserve) - ENDPOINT_MESSAGE_OVERHEAD
  }

  /**
   On every route, a payload that holds at most one full KCP packet leaves at least the reserve
   for padding, and with any padding in that room the packet fits the MTU.
   */
  lemma BudgetHolds(mtu: nat, longest: nat, hops: nat, reserve: nat, payload: nat, padding: nat)
    requires 1 <= hops <= longest && reserve <= 255
    requires payload <= KcpMtu(mtu, longest, reserve) + ENDPOINT_MESSAGE_OVERHEAD
    ensures reserve <= Available(mtu, hops, payload) <= 255
    ensures padding <= Available(mtu, hops, payload) ==> UnpaddedLen(hops, payload) + padding <= mtu
    ensures payload + ScheduledOverhead(longest, reserve) <= mtu
  {
  }

  /** A reserve of at least one byte is needed: a full packet on the longest route leaves just the reserve. */
  lemma ReserveIsTight(mtu: nat, longest: nat, reserve: nat)
    requires longest >= 1 && reserve <= 255 && KcpMtu(mtu, longest, reserve) >= 0
    ensures Available(mtu, longest, KcpMtu(mtu, longest, reserve) + ENDPOINT_MESSAGE_OVERHEAD) == reserve
  {
  }
}
