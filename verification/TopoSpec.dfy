/**
 What it takes to turn named edges into a graph in topological order: counting incoming
 edges, and the state of the sort that repeatedly takes a node without any.
 */
module TopoSpec {
  import opened RouteSpec

  /** An edge as the configuration file names it. */
  datatype NamedEdge = NamedEdge(from: string, to: string, channelId: nat, capacityHint: nat, latencyHint: nat)

  // ------------------------------------------------------------------ named graphs

  predicate Named(edges: seq<NamedEdge>, name: string) {
    exists i :: 0 <= i < |edges| && (edges[i].from == name || edges[i].to == name)
  }

  predicate Source(edges: seq<NamedEdge>, name: string) {
    Named(edges, name) && forall i :: 0 <= i < |edges| ==> edges[i].to != name
  }

  predicate Sink(edges: seq<NamedEdge>, name: string) {
    Named(edges, name) && forall i :: 0 <= i < |edges| ==> edges[i].from != name
  }

  ghost predicate OneSource(edges: seq<NamedEdge>) {
    exists s :: Source(edges, s) && forall t :: Source(edges, t) ==> t == s
  }

  ghost predicate OneSink(edges: seq<NamedEdge>) {
    exists s :: Sink(edges, s) && forall t :: Sink(edges, t) ==> t == s
  }

  predicate Rises(edges: seq<NamedEdge>, rank: map<string, nat>) {
    forall i :: 0 <= i < |edges| ==>
      edges[i].from in rank && edges[i].to in rank && rank[edges[i].from] < rank[edges[i].to]
  }

  predicate IsNamedEdge(edges: seq<NamedEdge>, from: string, to: string) {
    exists i :: 0 <= i < |edges| && edges[i].from == from && edges[i].to == to
  }

  /** A walk along named edges that ends where it began. */
  predicate Cycle(edges: seq<NamedEdge>, names: seq<string>) {
    && |names| >= 2 && names[0] == names[|names| - 1]
    && forall i :: 0 <= i < |names| - 1 ==> IsNamedEdge(edges, names[i], names[i + 1])
  }

  ghost predicate Acyclic(edges: seq<NamedEdge>) { forall names :: !Cycle(edges, names) }

  lemma {:induction false} RankRisesAlong(edges: seq<NamedEdge>, rank: map<string, nat>, names: seq<string>, i: nat)
    requires Rises(edges, rank) && i < |names| && names[0] in rank
    requires forall i :: 0 <= i < |names| - 1 ==> IsNamedEdge(edges, names[i], names[i + 1])
    ensures names[i] in rank && rank[names[0]] + i <= rank[names[i]]
  {
    if i == 0 {
    } else {
      RankRisesAlong(edges, rank, names, i - 1);
      assert IsNamedEdge(edges, names[i - 1], names[i]);
    }
  }

  /** Names that can be ranked along every edge form no cycle. */
  lemma RankedIsAcyclic(edges: seq<NamedEdge>, rank: map<string, nat>)
    requires Rises(edges, rank)
    ensures Acyclic(edges)
  {
    forall names ensures !Cycle(edges, names) {
      if Cycle(edges, names) {
        assert IsNamedEdge(edges, names[0], names[1]);
        RankRisesAlong(edges, rank, names, |names| - 1);
      }
    }
  }

  ghost predicate HasName(index: map<string, nat>, v: nat) { exists name :: name in index && index[name] == v }

  /** A number for every name, from zero upward without gaps. */
  ghost predicate Numbering(edges: seq<NamedEdge>, index: map<string, nat>) {
    && (forall name :: name in index <==> Named(edges, name))
    && (forall name :: name in index ==> index[name] < |index|)
    && (forall a, b :: a in index && b in index && index[a] == index[b] ==> a == b)
    && (forall v: nat :: v < |index| ==> HasName(index, v))
  }

  /** The edges of the node numbered `v`, in the order in which they were given. */
  function EdgesOf(edges: seq<NamedEdge>, index: map<string, nat>, v: nat): seq<EdgeConfig>
    requires forall i :: 0 <= i < |edges| ==> edges[i].from in index && edges[i].to in index
  {
    if edges == [] then []
    else
      var e := edges[|edges| - 1];
      EdgesOf(edges[..|edges| - 1], index, v)
      + (if index[e.from] == v then [EdgeConfig(e.channelId, index[e.to], e.capacityHint, e.latencyHint)] else [])
  }

  /** The graph that the named edges describe under a numbering of their nodes. */
  ghost predicate Describes(edges: seq<NamedEdge>, index: map<string, nat>, g: GraphConfig) {
    && Numbering(edges, index) && |g| == |index|
    && (forall i :: 0 <= i < |edges| ==> edges[i].from in index && edges[i].to in index)
    && forall v :: 0 <= v < |g| ==> g[v] == EdgesOf(edges, index, v)
  }

  /** An edge leads from node `u` to node `v`. */
  ghost predicate Leads(g: GraphConfig, u: nat, v: nat) {
    u < |g| && exists k :: 0 <= k < |g[u]| && g[u][k].next == v
  }

  ghost predicate HasIncoming(g: GraphConfig, v: nat) { exists u: nat :: Leads(g, u, v) }

  ghost predicate HasEdgeTo(es: seq<EdgeConfig>, v: nat) { exists k :: 0 <= k < |es| && es[k].next == v }

  /** One of the named edges joins the nodes with these numbers. */
  ghost predicate Joined(edges: seq<NamedEdge>, index: map<string, nat>, u: nat, v: nat)
    requires forall i :: 0 <= i < |edges| ==> edges[i].from in index && edges[i].to in index
  {
    exists i :: 0 <= i < |edges| && index[edges[i].from] == u && index[edges[i].to] == v
  }

  lemma {:induction false} EdgesOfLeads(edges: seq<NamedEdge>, index: map<string, nat>, u: nat, v: nat)
    requires forall i :: 0 <= i < |edges| ==> edges[i].from in index && edges[i].to in index
    ensures HasEdgeTo(EdgesOf(edges, index, u), v) <==> Joined(edges, index, u, v)
  {
    if edges == [] {
    } else {
      var init, last := edges[..|edges| - 1], edges[|edges| - 1];
      EdgesOfLeads(init, index, u, v);
      NamesLead(edges, index, u, v);
      var more := if index[last.from] == u
                  then [EdgeConfig(last.channelId, index[last.to], last.capacityHint, last.latencyHint)] else [];
      assert EdgesOf(edges, index, u) == EdgesOf(init, index, u) + more;
      assert more != [] ==> more[0].next == index[last.to];
      assert HasEdgeTo(more, v) <==> index[last.from] == u && index[last.to] == v;
      EdgesLead(EdgesOf(init, index, u), more, v);
    }
  }

  lemma EdgesLead(es: seq<EdgeConfig>, more: seq<EdgeConfig>, v: nat)
    ensures HasEdgeTo(es + more, v) <==> HasEdgeTo(es, v) || HasEdgeTo(more, v)
  {
    if k :| 0 <= k < |es| && es[k].next == v { assert (es + more)[k].next == v; }
    if k :| 0 <= k < |more| && more[k].next == v { assert (es + more)[|es| + k].next == v; }
  }

  lemma NamesLead(edges: seq<NamedEdge>, index: map<string, nat>, u: nat, v: nat)
    requires edges != [] && forall i :: 0 <= i < |edges| ==> edges[i].from in index && edges[i].to in index
    ensures var n := |edges| - 1;
            Joined(edges, index, u, v)
            <==> Joined(edges[..n], index, u, v) || (index[edges[n].from] == u && index[edges[n].to] == v)
  {
    var n := |edges| - 1;
    if i :| 0 <= i < n && index[edges[..n][i].from] == u && index[edges[..n][i].to] == v {
      assert index[edges[i].from] == u && index[edges[i].to] == v;
    }
    if i :| 0 <= i < n && index[edges[i].from] == u && index[edges[i].to] == v {
      assert edges[..n][i] == edges[i];
    }
  }

  /** An edge of the graph is one of the named edges, and the other way round. */
  lemma LeadsIff(edges: seq<NamedEdge>, index: map<string, nat>, g: GraphConfig, u: nat, v: nat)
    requires Describes(edges, index, g) && u < |g|
    ensures Leads(g, u, v) <==> exists i :: 0 <= i < |edges| && index[edges[i].from] == u && index[edges[i].to] == v
  {
    EdgesOfLeads(edges, index, u, v);
  }

  // ------------------------------------------------------------------ counting incoming edges

  function CountTo(es: seq<EdgeConfig>, v: nat, k: nat): nat
    requires k <= |es|
  {
    if k == 0 then 0 else CountTo(es, v, k - 1) + if es[k - 1].next == v then 1 else 0
  }

  /** The edges to `v` from the first `n` nodes that are not done. */
  function InDegree(g: GraphConfig, done: set<nat>, v: nat, n: nat): nat
    requires n <= |g|
  {
    if n == 0 then 0
    else InDegree(g, done, v, n - 1) + if n - 1 in done then 0 else CountTo(g[n - 1], v, |g[n - 1]|)
  }

  lemma {:induction false} InDegreeWithout(g: GraphConfig, done: set<nat>, v: nat, n: nat, x: nat)
    requires n <= |g| && x !in done && x < |g|
    ensures InDegree(g, done, v, n)
      == InDegree(g, done + {x}, v, n) + if x < n then CountTo(g[x], v, |g[x]|) else 0
  {
    if n == 0 {
    } else {
      InDegreeWithout(g, done, v, n - 1, x);
    }
  }

  lemma CountMonotone(es: seq<EdgeConfig>, v: nat, j: nat, k: nat)
    requires j <= k <= |es|
    ensures CountTo(es, v, j) <= CountTo(es, v, k)
  {
  }

  lemma {:induction false} CountZero(es: seq<EdgeConfig>, v: nat, k: nat)
    requires k <= |es|
    ensures CountTo(es, v, k) == 0 <==> forall j :: 0 <= j < k ==> es[j].next != v
  {
    if k == 0 {
    } else {
      CountZero(es, v, k - 1);
    }
  }

  lemma {:induction false} NoneCounted(g: GraphConfig, done: set<nat>, v: nat, n: nat)
    requires n <= |g|
    ensures InDegree(g, done, v, n) == 0 <==> forall u: nat :: u < n && u !in done ==> !Leads(g, u, v)
  {
    if n == 0 {
    } else {
      NoneCounted(g, done, v, n - 1);
      CountZero(g[n - 1], v, |g[n - 1]|);
    }
  }

  lemma InDegreeZero(g: GraphConfig, done: set<nat>, v: nat)
    ensures InDegree(g, done, v, |g|) == 0 <==> forall u: nat :: u !in done ==> !Leads(g, u, v)
  {
    NoneCounted(g, done, v, |g|);
  }

  // ------------------------------------------------------------------ the state of the sort

  function Elements(s: seq<nat>): set<nat> { set v | v in s }

  ghost predicate InGraph(g: GraphConfig) {
    forall u, k :: 0 <= u < |g| && 0 <= k < |g[u]| ==> g[u][k].next < |g|
  }

  ghost predicate Distinct(s: seq<nat>) { forall i, j :: 0 <= i < j < |s| ==> s[i] != s[j] }

  /** Every node comes after all nodes with an edge to it. */
  ghost predicate Sorted(g: GraphConfig, order: seq<nat>) {
    forall i, u: nat :: 0 <= i < |order| && Leads(g, u, order[i]) ==> u in order[..i]
  }

  /** The nodes without unordered predecessors are those ordered and those waiting. */
  ghost predicate Sorting(g: GraphConfig, order: seq<nat>, ready: seq<nat>, indegree: seq<nat>) {
    && InGraph(g) && |indegree| == |g|
    && Distinct(order + ready) && (forall v :: v in order + ready ==> v < |g|)
    && (forall v :: 0 <= v < |g| ==> indegree[v] == InDegree(g, Elements(order), v, |g|))
    && (forall v :: 0 <= v < |g| ==> (indegree[v] == 0 <==> v in order + ready))
    && Sorted(g, order)
  }

  /** The first `k` edges of the node taken last have been counted off. */
  ghost predicate Counting(g: GraphConfig, order: seq<nat>, node: nat, k: nat, ready: seq<nat>, indegree: seq<nat>) {
    && InGraph(g) && |indegree| == |g| && node < |g| && k <= |g[node]|
    && Distinct(order + [node] + ready) && (forall v :: v in order + [node] + ready ==> v < |g|)
    && (forall v :: 0 <= v < |g| ==>
      indegree[v] + CountTo(g[node], v, k) == InDegree(g, Elements(order), v, |g|))
    && (forall v :: 0 <= v < |g| ==> (indegree[v] == 0 <==> v in order + [node] + ready))
    && Sorted(g, order + [node])
  }

  lemma StartCounting(g: GraphConfig, order: seq<nat>, ready: seq<nat>, indegree: seq<nat>)
    requires Sorting(g, order, ready, indegree) && ready != []
    ensures Counting(g, order, ready[0], 0, ready[1..], indegree)
  {
    var node := ready[0];
    assert order + ready == order + [node] + ready[1..];
    assert (order + ready)[|order|] == node && node in order + ready;
    InDegreeZero(g, Elements(order), node);
    var order' := order + [node];
    forall i, u: nat | 0 <= i < |order'| && Leads(g, u, order'[i]) ensures u in order'[..i] {
      if i < |order| {
        assert order'[..i] == order[..i];
      } else {
        assert order'[..i] == order;
        assert u in Elements(order);
      }
    }
  }

  /** Counting off one edge makes its target ready when nothing else leads there. */
  lemma CountEdge(g: GraphConfig, order: seq<nat>, node: nat, k: nat, ready: seq<nat>, indegree: seq<nat>)
    requires Counting(g, order, node, k, ready, indegree) && k < |g[node]|
    ensures var next := g[node][k].next;
            next < |g| && indegree[next] > 0
            && var less := indegree[next := indegree[next] - 1];
               Counting(g, order, node, k + 1, if less[next] == 0 then ready + [next] else ready, less)
  {
    var next := g[node][k].next;
    InDegreeWithout(g, Elements(order), next, |g|, node) by {
      assert node !in Elements(order) by { NodeNotYet(order, node, ready); }
    }
    CountMonotone(g[node], next, k + 1, |g[node]|);
    var less := indegree[next := indegree[next] - 1];
    assert next !in order + [node] + ready;
    if less[next] == 0 {
      assert order + [node] + (ready + [next]) == (order + [node] + ready) + [next];
    }
  }

  lemma NodeNotYet(order: seq<nat>, node: nat, ready: seq<nat>)
    requires Distinct(order + [node] + ready)
    ensures node !in order
  {
    var all := order + [node] + ready;
    forall i | 0 <= i < |order| ensures order[i] != node {
      assert all[i] == order[i] && all[|order|] == node;
    }
  }

  lemma StopCounting(g: GraphConfig, order: seq<nat>, node: nat, ready: seq<nat>, indegree: seq<nat>)
    requires node < |g| && Counting(g, order, node, |g[node]|, ready, indegree)
    ensures Sorting(g, order + [node], ready, indegree)
  {
    NodeNotYet(order, node, ready);
    assert Elements(order + [node]) == Elements(order) + {node};
    forall v | 0 <= v < |g| ensures indegree[v] == InDegree(g, Elements(order + [node]), v, |g|) {
      InDegreeWithout(g, Elements(order), v, |g|, node);
    }
  }

  // ------------------------------------------------------------------ the end of the sort

  lemma {:induction false} DistinctCount(s: seq<nat>)
    requires Distinct(s)
    ensures |Elements(s)| == |s|
  {
    if s == [] {
    } else {
      var init := s[..|s| - 1];
      DistinctCount(init);
      assert Elements(s) == Elements(init) + {s[|s| - 1]};
    }
  }

  function Below(n: nat): (below: set<nat>)
    ensures |below| == n && forall v: nat :: v in below <==> v < n
  {
    if n == 0 then {} else Below(n - 1) + {n - 1}
  }

  /** Distinct numbers below `n` are all of them exactly when there are `n`. */
  lemma AllOrdered(order: seq<nat>, n: nat)
    requires Distinct(order) && forall v :: v in order ==> v < n
    ensures |order| <= n
    ensures |order| == n <==> forall v: nat :: v < n ==> v in order
  {
    DistinctCount(order);
    assert Elements(order) <= Below(n);
    Subset(Elements(order), Below(n));
    if |order| == n {
      assert Elements(order) == Below(n);
      forall v: nat | v < n ensures v in order { assert v in Below(n); }
    }
    if forall v: nat :: v < n ==> v in order {
      assert Elements(order) == Below(n);
    }
  }

  lemma Subset(a: set<nat>, b: set<nat>)
    requires a <= b
    ensures |a| <= |b| && (|a| == |b| ==> a == b)
  {
    assert b == a + (b - a);
  }

  /** When the sort stops short, every node left has a predecessor that is left. */
  lemma LeftHasPredecessor(g: GraphConfig, order: seq<nat>, indegree: seq<nat>, v: nat) returns (u: nat)
    requires Sorting(g, order, [], indegree) && v < |g| && v !in order
    ensures u < |g| && u !in order && Leads(g, u, v)
  {
    assert order + [] == order;
    InDegreeZero(g, Elements(order), v);
    u :| u !in Elements(order) && Leads(g, u, v);
  }

  /** Walking back from a node that is left. */
  lemma {:induction false} BackWalk(
      g: GraphConfig, order: seq<nat>, indegree: seq<nat>, v: nat, n: nat) returns (w: seq<nat>)
    requires Sorting(g, order, [], indegree) && v < |g| && v !in order
    ensures |w| == n + 1 && w[0] < |g| && w[0] !in order
    ensures forall x :: x in w ==> x < |g|
    ensures forall i :: 0 <= i < n ==> Leads(g, w[i], w[i + 1])
  {
    if n == 0 {
      w := [v];
    } else {
      var rest := BackWalk(g, order, indegree, v, n - 1);
      var u := LeftHasPredecessor(g, order, indegree, rest[0]);
      w := [u] + rest;
      forall i | 0 <= i < n ensures Leads(g, w[i], w[i + 1]) {
        if i > 0 { assert w[i] == rest[i - 1] && w[i + 1] == rest[i]; }
      }
    }
  }

  /** Walking back long enough comes to the same node twice. */
  lemma LeftHasCycle(g: GraphConfig, order: seq<nat>, indegree: seq<nat>, v: nat) returns (w: seq<nat>)
    requires Sorting(g, order, [], indegree) && v < |g| && v !in order
    ensures |w| >= 2 && w[0] == w[|w| - 1] && forall x :: x in w ==> x < |g|
    ensures forall i :: 0 <= i < |w| - 1 ==> Leads(g, w[i], w[i + 1])
  {
    var walk := BackWalk(g, order, indegree, v, |g|);
    if Distinct(walk) {
      AllOrdered(walk, |g|);
    }
    var i, j :| 0 <= i < j < |walk| && walk[i] == walk[j];
    w := walk[i..j + 1];
    forall x | x in w ensures x < |g| {
      assert x in walk;
    }
  }
}
