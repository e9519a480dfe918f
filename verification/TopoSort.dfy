/** Building the route graph from named edges. */
module TopoSort {
  import opened Options
  import opened RouteSpec
  import opened TopoSpec

  // ------------------------------------------------------------------ numbering the names

  /** Numbers are given in the order in which names first appear. */
  method NumberNames(edges: seq<NamedEdge>) returns (index: map<string, nat>)
    ensures Numbering(edges, index)
  {
    index := map[];
    for i := 0 to |edges|
      invariant Compact(index) && Covers(edges, i, index.Keys)
    {
      ghost var before := index.Keys;
      index := Enter(index, edges[i].from);
      index := Enter(index, edges[i].to);
      CoversNext(edges, i, before);
    }
    CoversAll(edges, index);
  }

  /** The names of the first `n` edges. */
  ghost predicate Covers(edges: seq<NamedEdge>, n: nat, names: set<string>)
    requires n <= |edges|
  {
    && (forall i :: 0 <= i < n ==> edges[i].from in names && edges[i].to in names)
    && (forall name :: name in names ==> exists i :: 0 <= i < n && (edges[i].from == name || edges[i].to == name))
  }

  lemma CoversNext(edges: seq<NamedEdge>, n: nat, names: set<string>)
    requires n < |edges| && Covers(edges, n, names)
    ensures Covers(edges, n + 1, names + {edges[n].from} + {edges[n].to})
  {
    forall name | name in names + {edges[n].from} + {edges[n].to}
      ensures exists i :: 0 <= i < n + 1 && (edges[i].from == name || edges[i].to == name)
    {
      if name in names {
        var i :| 0 <= i < n && (edges[i].from == name || edges[i].to == name);
        assert i < n + 1;
      }
    }
  }

  lemma CoversAll(edges: seq<NamedEdge>, index: map<string, nat>)
    requires Compact(index) && Covers(edges, |edges|, index.Keys)
    ensures Numbering(edges, index)
  {
    forall name ensures name in index <==> Named(edges, name) {
      assert name in index <==> name in index.Keys;
    }
  }

  /** The numbers in use are exactly those below the number of names. */
  ghost predicate Compact(index: map<string, nat>) {
    && (forall name :: name in index ==> index[name] < |index|)
    && (forall a, b :: a in index && b in index && index[a] == index[b] ==> a == b)
    && (forall v: nat :: v < |index| ==> HasName(index, v))
  }

  method Enter(index: map<string, nat>, name: string) returns (index': map<string, nat>)
    requires Compact(index)
    ensures Compact(index') && index'.Keys == index.Keys + {name}
  {
    if name in index { return index; }
    index' := index[name := |index|];
    forall v: nat | v < |index'| ensures HasName(index', v) {
      if v < |index| {
        assert HasName(index, v);
        var old' :| old' in index && index[old'] == v;
        assert old' in index' && index'[old'] == v;
      } else {
        assert name in index' && index'[name] == v;
      }
    }
  }

  // ------------------------------------------------------------------ adjacency

  predicate Indexed(edges: seq<NamedEdge>, index: map<string, nat>) {
    forall i :: 0 <= i < |edges| ==>
      && edges[i].from in index && index[edges[i].from] < |index|
      && edges[i].to in index && index[edges[i].to] < |index|
  }

  /** Edge lists and in-degrees; none when an edge leads from a node to itself. */
  method Adjacency(edges: seq<NamedEdge>, index: map<string, nat>)
    returns (nodes: GraphConfig, indegree: array<nat>, ok: bool)
    requires Indexed(edges, index)
    ensures fresh(indegree)
    ensures !ok ==> exists i :: 0 <= i < |edges| && index[edges[i].from] == index[edges[i].to]
    ensures ok ==> Adjacent(edges, |edges|, index, nodes, indegree[..])
  {
    nodes := seq(|index|, _ => []);
    indegree := new nat[|index|](_ => 0);
    NothingAdjacent(edges, index, nodes, indegree[..]);
    for i := 0 to |edges|
      invariant Adjacent(edges, i, index, nodes, indegree[..])
    {
      var e := edges[i];
      var from, next := index[e.from], index[e.to];
      if from == next { return nodes, indegree, false; }
      ghost var was, counts := nodes, indegree[..];
      var c := EdgeConfig(e.channelId, next, e.capacityHint, e.latencyHint);
      indegree[next] := indegree[next] + 1;
      nodes := nodes[from := nodes[from] + [c]];
      assert indegree[..] == counts[next := counts[next] + 1];
      AdjacentNext(edges, i, index, was, counts);
    }
    ok := true;
  }

  /** The first `n` edges are entered and counted, and none of them is a loop. */
  ghost predicate Adjacent(
      edges: seq<NamedEdge>, n: nat, index: map<string, nat>, nodes: GraphConfig, indegree: seq<nat>)
    requires n <= |edges| && Indexed(edges, index)
  {
    && |nodes| == |index| == |indegree| && InGraph(nodes)
    && (forall v :: 0 <= v < |nodes| ==> nodes[v] == EdgesOf(edges[..n], index, v))
    && (forall v :: 0 <= v < |nodes| ==> indegree[v] == InDegree(nodes, {}, v, |nodes|))
    && (forall j :: 0 <= j < n ==> index[edges[j].from] != index[edges[j].to])
  }

  lemma NothingAdjacent(edges: seq<NamedEdge>, index: map<string, nat>, nodes: GraphConfig, indegree: seq<nat>)
    requires Indexed(edges, index)
    requires |nodes| == |index| == |indegree|
    requires forall v :: 0 <= v < |nodes| ==> nodes[v] == [] && indegree[v] == 0
    ensures Adjacent(edges, 0, index, nodes, indegree)
  {
    forall v | 0 <= v < |nodes| ensures InDegree(nodes, {}, v, |nodes|) == 0 {
      InDegreeZero(nodes, {}, v);
    }
  }

  lemma AdjacentNext(edges: seq<NamedEdge>, n: nat, index: map<string, nat>, nodes: GraphConfig, indegree: seq<nat>)
    requires n < |edges| && Indexed(edges, index) && Adjacent(edges, n, index, nodes, indegree)
    requires index[edges[n].from] != index[edges[n].to]
    ensures var e := edges[n];
            var from, next := index[e.from], index[e.to];
            Adjacent(edges, n + 1, index,
                     nodes[from := nodes[from] + [EdgeConfig(e.channelId, next, e.capacityHint, e.latencyHint)]],
                     indegree[next := indegree[next] + 1])
  {
    var e := edges[n];
    var from, next := index[e.from], index[e.to];
    var c := EdgeConfig(e.channelId, next, e.capacityHint, e.latencyHint);
    var nodes' := nodes[from := nodes[from] + [c]];
    assert edges[..n + 1][..n] == edges[..n];
    forall v | 0 <= v < |nodes| ensures InDegree(nodes', {}, v, |nodes|)
      == InDegree(nodes, {}, v, |nodes|) + if c.next == v then 1 else 0
    {
      InDegreeGrows(nodes, from, c, v, |nodes|);
    }
  }

  lemma NamesIndexed(edges: seq<NamedEdge>, index: map<string, nat>)
    requires Numbering(edges, index)
    ensures Indexed(edges, index)
  {
    forall i | 0 <= i < |edges| ensures Named(edges, edges[i].from) && Named(edges, edges[i].to) {
    }
  }

  lemma {:induction false} InDegreeGrows(g: GraphConfig, from: nat, c: EdgeConfig, v: nat, n: nat)
    requires from < |g| && n <= |g|
    ensures InDegree(g[from := g[from] + [c]], {}, v, n)
      == InDegree(g, {}, v, n) + if from < n && c.next == v then 1 else 0
  {
    if n == 0 {
    } else {
      InDegreeGrows(g, from, c, v, n - 1);
      if from == n - 1 {
        CountGrows(g[from], c, v, |g[from]|);
      }
    }
  }

  lemma {:induction false} CountGrows(es: seq<EdgeConfig>, c: EdgeConfig, v: nat, k: nat)
    requires k <= |es|
    ensures CountTo(es + [c], v, k) == CountTo(es, v, k)
  {
    if k == 0 {
    } else {
      CountGrows(es, c, v, k - 1);
    }
  }

  // ------------------------------------------------------------------ sources and sinks

  method Sources(indegree: array<nat>) returns (sources: seq<nat>)
    ensures Distinct(sources)
    ensures forall v: nat :: v in sources <==> v < indegree.Length && indegree[v] == 0
  {
    sources := [];
    for v := 0 to indegree.Length
      invariant Distinct(sources)
      invariant forall u: nat :: u in sources <==> u < v && indegree[u] == 0
    {
      if indegree[v] == 0 { sources := sources + [v]; }
    }
  }

  method Sinks(nodes: GraphConfig) returns (sinks: seq<nat>)
    ensures Distinct(sinks)
    ensures forall v: nat :: v in sinks <==> v < |nodes| && nodes[v] == []
  {
    sinks := [];
    for v := 0 to |nodes|
      invariant Distinct(sinks)
      invariant forall u: nat :: u in sinks <==> u < v && nodes[u] == []
    {
      if nodes[v] == [] { sinks := sinks + [v]; }
    }
  }

  // ------------------------------------------------------------------ sorting

  /** Counts off the edges of a node taken from the queue. */
  method TakeNode(g: GraphConfig, ghost order: seq<nat>, node: nat, ready: seq<nat>, indegree: array<nat>)
    returns (ready': seq<nat>)
    requires Counting(g, order, node, 0, ready, indegree[..])
    modifies indegree
    ensures Sorting(g, order + [node], ready', indegree[..])
  {
    ready' := ready;
    for k := 0 to |g[node]|
      invariant Counting(g, order, node, k, ready', indegree[..])
    {
      var next := g[node][k].next;
      ghost var was := indegree[..];
      CountEdge(g, order, node, k, ready', was);
      indegree[next] := indegree[next] - 1;
      assert indegree[..] == was[next := was[next] - 1];
      if indegree[next] == 0 { ready' := ready' + [next]; }
    }
    StopCounting(g, order, node, ready', indegree[..]);
  }

  /** Kahn's algorithm: what can be ordered is ordered. */
  method Sort(g: GraphConfig, sources: seq<nat>, indegree: array<nat>) returns (order: seq<nat>)
    requires Sorting(g, [], sources, indegree[..])
    modifies indegree
    ensures Sorting(g, order, [], indegree[..])
    ensures sources != [] ==> order != [] && order[0] == sources[0]
  {
    order := [];
    var ready := sources;
    while ready != []
      invariant Sorting(g, order, ready, indegree[..])
      invariant order == [] ==> ready == sources
      invariant order != [] ==> sources != [] && order[0] == sources[0]
      decreases |g| - |order|
    {
      StartCounting(g, order, ready, indegree[..]);
      var node := ready[0];
      OrderFits(g, order, ready, indegree[..]);
      ready := TakeNode(g, order, node, ready[1..], indegree);
      order := order + [node];
    }
  }

  lemma OrderFits(g: GraphConfig, order: seq<nat>, ready: seq<nat>, indegree: seq<nat>)
    requires Sorting(g, order, ready, indegree) && ready != []
    ensures |order| < |g|
  {
    AllOrdered(order + ready, |g|);
  }

  // ------------------------------------------------------------------ the result

  /** The same graph, with every node at its place in the order. */
  function Renumbered(es: seq<EdgeConfig>, positions: seq<nat>): seq<EdgeConfig>
    requires forall k :: 0 <= k < |es| ==> es[k].next < |positions|
  {
    seq(|es|, k requires 0 <= k < |es| => es[k].(next := positions[es[k].next]))
  }

  ghost predicate Inverse(order: seq<nat>, positions: seq<nat>) {
    && |order| == |positions|
    && (forall i :: 0 <= i < |order| ==> order[i] < |positions| && positions[order[i]] == i)
    && (forall v :: 0 <= v < |positions| ==> positions[v] < |order| && order[positions[v]] == v)
  }

  method Positions(order: seq<nat>, n: nat) returns (positions: seq<nat>)
    requires Distinct(order) && |order| == n && forall v :: v in order ==> v < n
    ensures Inverse(order, positions)
  {
    positions := seq(n, _ => 0);
    for i := 0 to |order|
      invariant |positions| == n
      invariant forall j :: 0 <= j < i ==> order[j] < n && positions[order[j]] == j
    {
      assert order[i] in order;
      positions := positions[order[i] := i];
    }
    AllOrdered(order, n);
    forall v: nat | v < n ensures positions[v] < n && order[positions[v]] == v {
      assert v in order;
      var i :| 0 <= i < |order| && order[i] == v;
    }
  }

  // ------------------------------------------------------------------ what the asserts check

  lemma NameOf(edges: seq<NamedEdge>, index: map<string, nat>, v: nat) returns (name: string)
    requires Numbering(edges, index) && v < |index|
    ensures name in index && index[name] == v
  {
    assert HasName(index, v);
    name :| name in index && index[name] == v;
  }

  lemma SourceIff(edges: seq<NamedEdge>, index: map<string, nat>, g: GraphConfig, name: string)
    requires Describes(edges, index, g) && name in index
    ensures InDegree(g, {}, index[name], |g|) == 0 <==> Source(edges, name)
  {
    var v := index[name];
    InDegreeZero(g, {}, v);
    forall u: nat | u < |g| {
      LeadsIff(edges, index, g, u, v);
    }
    if Source(edges, name) {
      forall u: nat ensures !Leads(g, u, v) {
      }
    } else {
      var i :| 0 <= i < |edges| && edges[i].to == name;
      assert Leads(g, index[edges[i].from], v);
    }
  }

  lemma {:induction false} NoEdgesIff(edges: seq<NamedEdge>, index: map<string, nat>, v: nat)
    requires forall i :: 0 <= i < |edges| ==> edges[i].from in index && edges[i].to in index
    ensures EdgesOf(edges, index, v) == [] <==> forall i :: 0 <= i < |edges| ==> index[edges[i].from] != v
  {
    if edges == [] {
    } else {
      var init := edges[..|edges| - 1];
      NoEdgesIff(init, index, v);
      assert forall i :: 0 <= i < |init| ==> init[i] == edges[i];
    }
  }

  lemma SinkIff(edges: seq<NamedEdge>, index: map<string, nat>, g: GraphConfig, name: string)
    requires Describes(edges, index, g) && name in index
    ensures g[index[name]] == [] <==> Sink(edges, name)
  {
    NoEdgesIff(edges, index, index[name]);
  }

  lemma SameNumber(edges: seq<NamedEdge>, index: map<string, nat>, a: string, b: string)
    requires Numbering(edges, index) && a in index && b in index && index[a] == index[b]
    ensures a == b
  {
  }

  ghost predicate Single(meant: set<string>) { exists s :: s in meant && forall t :: t in meant ==> t == s }

  /** The numbers picked are those of the names meant. */
  ghost predicate PickedNames(index: map<string, nat>, picked: seq<nat>, meant: set<string>) {
    && (forall v :: v in picked ==> v < |index|)
    && (forall name :: name in meant ==> name in index)
    && (forall name :: name in index ==> (index[name] in picked <==> name in meant))
  }

  lemma OnePicked(edges: seq<NamedEdge>, index: map<string, nat>, picked: seq<nat>, meant: set<string>)
    requires Numbering(edges, index) && PickedNames(index, picked, meant) && |picked| == 1
    ensures Single(meant)
  {
    assert picked[0] in picked;
    var s := NameOf(edges, index, picked[0]);
    forall t | t in meant ensures t == s {
      assert index[t] in picked;
      SameNumber(edges, index, t, s);
    }
  }

  lemma OneMeant(edges: seq<NamedEdge>, index: map<string, nat>, picked: seq<nat>, meant: set<string>)
    requires Numbering(edges, index) && PickedNames(index, picked, meant) && Distinct(picked) && Single(meant)
    ensures |picked| == 1
  {
    var s :| s in meant && forall t :: t in meant ==> t == s;
    assert index[s] in picked;
    forall v | v in picked ensures v == index[s] {
      var t := NameOf(edges, index, v);
    }
    DistinctCount(picked);
    assert Elements(picked) == {index[s]};
  }

  /** Exactly one number is picked when exactly one name is meant. */
  lemma OneIff(edges: seq<NamedEdge>, index: map<string, nat>, picked: seq<nat>, meant: set<string>)
    requires Numbering(edges, index) && PickedNames(index, picked, meant) && Distinct(picked)
    ensures |picked| == 1 <==> Single(meant)
  {
    if |picked| == 1 { OnePicked(edges, index, picked, meant); }
    if Single(meant) { OneMeant(edges, index, picked, meant); }
  }

  lemma SourceNames(edges: seq<NamedEdge>, index: map<string, nat>) returns (meant: set<string>)
    requires Numbering(edges, index)
    ensures forall name :: name in meant <==> Source(edges, name)
  {
    meant := set name | name in index && Source(edges, name);
  }

  lemma SinkNames(edges: seq<NamedEdge>, index: map<string, nat>) returns (meant: set<string>)
    requires Numbering(edges, index)
    ensures forall name :: name in meant <==> Sink(edges, name)
  {
    meant := set name | name in index && Sink(edges, name);
  }

  lemma OneSourceIff(edges: seq<NamedEdge>, index: map<string, nat>, g: GraphConfig, sources: seq<nat>)
    requires Describes(edges, index, g) && Distinct(sources)
    requires forall v: nat :: v in sources <==> v < |g| && InDegree(g, {}, v, |g|) == 0
    ensures |sources| == 1 <==> OneSource(edges)
  {
    var meant := SourceNames(edges, index);
    forall name | name in index ensures index[name] in sources <==> name in meant {
      SourceIff(edges, index, g, name);
    }
    OneIff(edges, index, sources, meant);
  }

  lemma OneSinkIff(edges: seq<NamedEdge>, index: map<string, nat>, g: GraphConfig, sinks: seq<nat>)
    requires Describes(edges, index, g) && Distinct(sinks)
    requires forall v: nat :: v in sinks <==> v < |g| && g[v] == []
    ensures |sinks| == 1 <==> OneSink(edges)
  {
    var meant := SinkNames(edges, index);
    forall name | name in index ensures index[name] in sinks <==> name in meant {
      SinkIff(edges, index, g, name);
    }
    OneIff(edges, index, sinks, meant);
  }

  /** The order is complete exactly when the edges have no cycle. */
  lemma CompleteIffAcyclic(
      edges: seq<NamedEdge>, index: map<string, nat>, g: GraphConfig, order: seq<nat>, indegree: seq<nat>)
    requires Describes(edges, index, g) && Sorting(g, order, [], indegree)
    ensures |order| == |g| <==> Acyclic(edges)
  {
    assert order + [] == order;
    AllOrdered(order, |g|);
    if |order| == |g| {
      CompleteIsAcyclic(edges, index, g, order);
    }
    if |order| != |g| {
      var v: nat :| v < |g| && v !in order;
      var w := LeftHasCycle(g, order, indegree, v);
      var names := NamesOnCycle(edges, index, g, w);
    }
  }

  function PlaceIn(order: seq<nat>, v: nat): (i: nat)
    requires v in order
    ensures i < |order| && order[i] == v
  {
    if order[0] == v then 0 else 1 + PlaceIn(order[1..], v)
  }

  lemma PlaceIs(order: seq<nat>, i: nat)
    requires Distinct(order) && i < |order|
    ensures PlaceIn(order, order[i]) == i
  {
    var j := PlaceIn(order, order[i]);
    assert order[j] == order[i];
  }

  lemma PlacesRise(g: GraphConfig, order: seq<nat>, u: nat, v: nat)
    requires Distinct(order) && Sorted(g, order) && u in order && v in order && Leads(g, u, v)
    ensures PlaceIn(order, u) < PlaceIn(order, v)
  {
    var j := PlaceIn(order, v);
    assert u in order[..j];
    var i :| 0 <= i < j && order[i] == u;
    PlaceIs(order, i);
  }

  lemma CompleteIsAcyclic(edges: seq<NamedEdge>, index: map<string, nat>, g: GraphConfig, order: seq<nat>)
    requires Describes(edges, index, g) && Distinct(order) && Sorted(g, order)
    requires forall v: nat :: v < |g| ==> v in order
    ensures Acyclic(edges)
  {
    var rank := map name | name in index :: PlaceIn(order, index[name]);
    forall i | 0 <= i < |edges| ensures rank[edges[i].from] < rank[edges[i].to] {
      LeadsIff(edges, index, g, index[edges[i].from], index[edges[i].to]);
      PlacesRise(g, order, index[edges[i].from], index[edges[i].to]);
    }
    RankedIsAcyclic(edges, rank);
  }

  lemma NamesOnCycle(
      edges: seq<NamedEdge>, index: map<string, nat>, g: GraphConfig, w: seq<nat>) returns (names: seq<string>)
    requires Describes(edges, index, g)
    requires |w| >= 2 && w[0] == w[|w| - 1] && forall x :: x in w ==> x < |g|
    requires forall i :: 0 <= i < |w| - 1 ==> Leads(g, w[i], w[i + 1])
    ensures Cycle(edges, names)
  {
    names := [];
    for i := 0 to |w|
      invariant |names| == i
      invariant forall j :: 0 <= j < i ==> names[j] in index && index[names[j]] == w[j]
    {
      assert w[i] in w;
      var name := NameOf(edges, index, w[i]);
      names := names + [name];
    }
    forall i | 0 <= i < |names| - 1 ensures IsNamedEdge(edges, names[i], names[i + 1]) {
      EdgeBetween(edges, index, g, names[i], names[i + 1]);
    }
    SameNumber(edges, index, names[0], names[|names| - 1]);
  }

  lemma EdgeBetween(edges: seq<NamedEdge>, index: map<string, nat>, g: GraphConfig, from: string, to: string)
    requires Describes(edges, index, g) && from in index && to in index && Leads(g, index[from], index[to])
    ensures IsNamedEdge(edges, from, to)
  {
    LeadsIff(edges, index, g, index[from], index[to]);
    var i :| 0 <= i < |edges| && index[edges[i].from] == index[from] && index[edges[i].to] == index[to];
    SameNumber(edges, index, edges[i].from, from);
    SameNumber(edges, index, edges[i].to, to);
  }

  // ------------------------------------------------------------------ renumbering

  lemma {:induction false} RenumberedEdges(
      edges: seq<NamedEdge>, index: map<string, nat>, place: map<string, nat>, order: seq<nat>,
      positions: seq<nat>, v: nat)
    requires forall i :: 0 <= i < |edges| ==> edges[i].from in index && edges[i].to in index
    requires place.Keys == index.Keys && Inverse(order, positions) && v < |positions|
    requires forall name :: name in index ==> index[name] < |positions| && place[name] == positions[index[name]]
    ensures forall k :: 0 <= k < |EdgesOf(edges, index, v)| ==> EdgesOf(edges, index, v)[k].next < |positions|
    ensures Renumbered(EdgesOf(edges, index, v), positions) == EdgesOf(edges, place, positions[v])
  {
    if edges == [] {
    } else {
      var init, e := edges[..|edges| - 1], edges[|edges| - 1];
      RenumberedEdges(init, index, place, order, positions, v);
      assert positions[index[e.from]] == positions[v] <==> index[e.from] == v by {
        assert order[positions[v]] == v && order[positions[index[e.from]]] == index[e.from];
      }
    }
  }

  /** The renumbered graph describes the same edges. */
  lemma RenumberedDescribes(
      edges: seq<NamedEdge>, index: map<string, nat>, g: GraphConfig, order: seq<nat>, positions: seq<nat>,
      g': GraphConfig)
    returns (place: map<string, nat>)
    requires Describes(edges, index, g) && InGraph(g) && Inverse(order, positions) && |order| == |g| == |g'|
    requires forall i :: 0 <= i < |order| ==> g'[i] == Renumbered(g[order[i]], positions)
    ensures Describes(edges, place, g')
  {
    place := map name | name in index :: positions[index[name]];
    assert place.Keys == index.Keys;
    SameSize(place, index);
    forall a, b | a in place && b in place && place[a] == place[b] ensures a == b {
      assert order[positions[index[a]]] == index[a] && order[positions[index[b]]] == index[b];
    }
    forall i: nat | i < |place| ensures HasName(place, i) {
      var name := NameOf(edges, index, order[i]);
      assert name in place && place[name] == i;
    }
    forall i | 0 <= i < |g'| ensures g'[i] == EdgesOf(edges, place, i) {
      RenumberedEdges(edges, index, place, order, positions, order[i]);
    }
  }

  lemma SameSize(a: map<string, nat>, b: map<string, nat>)
    requires a.Keys == b.Keys
    ensures |a| == |b|
  {
    assert |a| == |a.Keys| && |b| == |b.Keys|;
  }

  /** Every node but the first is led to, and every node but the last leads on. */
  ghost predicate Linked(g: GraphConfig) {
    && ConfigOk(g)
    && forall v: nat :: 0 < v < |g| ==> HasIncoming(g, v)
  }

  lemma RenumberedRises(g: GraphConfig, order: seq<nat>, positions: seq<nat>, g': GraphConfig)
    requires InGraph(g) && Inverse(order, positions) && |order| == |g| == |g'| && Sorted(g, order)
    requires forall i :: 0 <= i < |order| ==> g'[i] == Renumbered(g[order[i]], positions)
    ensures forall u, k :: 0 <= u < |g'| && 0 <= k < |g'[u]| ==> u < g'[u][k].next < |g'|
  {
    forall u: nat, k: nat | u < |g'| && k < |g'[u]| ensures u < g'[u][k].next < |g'| {
      var v := g[order[u]][k].next;
      assert Leads(g, order[u], v);
      var j := positions[v];
      assert order[j] == v && order[u] in order[..j];
      var i :| 0 <= i < j && order[i] == order[u];
      assert positions[order[i]] == i && positions[order[u]] == u;
    }
  }

  lemma RenumberedIsLinked(
      g: GraphConfig, order: seq<nat>, positions: seq<nat>, g': GraphConfig, source: nat, sink: nat)
    requires InGraph(g) && Inverse(order, positions) && |order| == |g| == |g'| >= 2 && Sorted(g, order)
    requires forall i :: 0 <= i < |order| ==> g'[i] == Renumbered(g[order[i]], positions)
    requires order[0] == source && sink < |g|
    requires forall v: nat :: v < |g| && v != source ==> HasIncoming(g, v)
    requires forall v: nat :: v < |g| && v != sink ==> g[v] != []
    ensures Linked(g')
  {
    RenumberedRises(g, order, positions, g');
    var last := |g| - 1;
    LastHasNoEdges(g');
    assert order[last] == sink;
    forall v: nat | v < last ensures g'[v] != [] {
      assert positions[order[v]] == v && positions[order[last]] == last;
    }
    forall v: nat | 0 < v < |g'| ensures HasIncoming(g', v) {
      assert positions[order[v]] == v && positions[order[0]] == 0;
      assert HasIncoming(g, order[v]);
      var u: nat :| Leads(g, u, order[v]);
      var k :| 0 <= k < |g[u]| && g[u][k].next == order[v];
      assert g'[positions[u]][k].next == v;
      assert Leads(g', positions[u], v);
    }
  }

  /** Puts every node at its place. */
  method Renumber(g: GraphConfig, order: seq<nat>) returns (g': GraphConfig, positions: seq<nat>)
    requires InGraph(g) && Distinct(order) && |order| == |g| && forall v :: v in order ==> v < |g|
    ensures Inverse(order, positions) && |g'| == |order|
    ensures forall i :: 0 <= i < |order| ==> g'[i] == Renumbered(g[order[i]], positions)
  {
    positions := Positions(order, |g|);
    g' := [];
    for i := 0 to |order|
      invariant |g'| == i
      invariant forall j :: 0 <= j < i ==> g'[j] == Renumbered(g[order[j]], positions)
    {
      g' := g' + [Renumbered(g[order[i]], positions)];
    }
  }

  /** The only edges a graph may be built from. */
  ghost predicate Buildable(edges: seq<NamedEdge>) {
    edges != [] && OneSource(edges) && OneSink(edges) && Acyclic(edges)
  }

  /**
   The route graph, or nothing where the original stops with a failed assertion: exactly when
   there are no edges, not one source, not one sink, or a cycle.
   */
  method BuildRoute(edges: seq<NamedEdge>) returns (r: Option<GraphConfig>)
    ensures r.Some? <==> Buildable(edges)
    ensures r.Some? ==> Linked(r.value)
    ensures r.Some? ==> exists place :: Describes(edges, place, r.value)
  {
    if edges == [] { return None; }
    var index := NumberNames(edges);
    NamesIndexed(edges, index);
    var nodes, indegree, ok := Adjacency(edges, index);
    if !ok {
      LoopIsCycle(edges, index);
      return None;
    }
    assert edges[..|edges|] == edges;
    var sources := Sources(indegree);
    OneSourceIff(edges, index, nodes, sources);
    if |sources| != 1 { return None; }
    var sinks := Sinks(nodes);
    OneSinkIff(edges, index, nodes, sinks);
    if |sinks| != 1 { return None; }
    StartSorting(nodes, sources, indegree[..]);
    var order := Sort(nodes, sources, indegree);
    CompleteIffAcyclic(edges, index, nodes, order, indegree[..]);
    if |order| != |nodes| { return None; }
    assert order + [] == order;
    var g, positions := Renumber(nodes, order);
    ghost var place := RenumberedDescribes(edges, index, nodes, order, positions, g);
    OnlyEnds(nodes, sources, sinks);
    TwoNodes(index, edges[0].from, edges[0].to);
    RenumberedIsLinked(nodes, order, positions, g, sources[0], sinks[0]);
    return Some(g);
  }

  lemma LoopIsCycle(edges: seq<NamedEdge>, index: map<string, nat>)
    requires Numbering(edges, index) && Indexed(edges, index)
    requires exists i :: 0 <= i < |edges| && index[edges[i].from] == index[edges[i].to]
    ensures !Acyclic(edges)
  {
    var i :| 0 <= i < |edges| && index[edges[i].from] == index[edges[i].to];
    SameNumber(edges, index, edges[i].from, edges[i].to);
    var names := [edges[i].from, edges[i].to];
    assert IsNamedEdge(edges, names[0], names[1]);
    assert Cycle(edges, names);
  }

  lemma StartSorting(g: GraphConfig, sources: seq<nat>, indegree: seq<nat>)
    requires InGraph(g) && |indegree| == |g| && Distinct(sources)
    requires forall v :: 0 <= v < |g| ==> indegree[v] == InDegree(g, {}, v, |g|)
    requires forall v: nat :: v in sources <==> v < |g| && indegree[v] == 0
    ensures Sorting(g, [], sources, indegree)
  {
    assert [] + sources == sources;
    assert Elements([]) == {};
  }

  lemma OnlyEnds(g: GraphConfig, sources: seq<nat>, sinks: seq<nat>)
    requires |sources| == |sinks| == 1
    requires forall v: nat :: v in sources <==> v < |g| && InDegree(g, {}, v, |g|) == 0
    requires forall v: nat :: v in sinks <==> v < |g| && g[v] == []
    ensures sources[0] < |g| && sinks[0] < |g|
    ensures forall v: nat :: v < |g| && v != sources[0] ==> HasIncoming(g, v)
    ensures forall v: nat :: v < |g| && v != sinks[0] ==> g[v] != []
  {
    assert sources[0] in sources && sinks[0] in sinks;
    forall v: nat | v < |g| && v != sources[0] ensures HasIncoming(g, v) {
      assert v !in sources;
      InDegreeZero(g, {}, v);
    }
    forall v: nat | v < |g| && v != sinks[0] ensures g[v] != [] {
      assert v !in sinks;
    }
  }

  /** An edge has two ends. */
  lemma TwoNodes(index: map<string, nat>, a: string, b: string)
    requires a in index && b in index && index[a] != index[b] && index[a] < |index| && index[b] < |index|
    ensures |index| >= 2
  {
  }

  // ------------------------------------------------------------------ what the graph offers

  /** A walk along edges of the graph. */
  ghost predicate Chain(g: GraphConfig, nodes: seq<nat>, from: nat, to: nat)
    requires ConfigOk(g)
  {
    && nodes != [] && nodes[0] == from && nodes[|nodes| - 1] == to
    && forall i :: 0 <= i < |nodes| - 1 ==> Leads(g, nodes[i], nodes[i + 1])
  }

  /** Every node lies on a way from the first node to the last one. */
  lemma OnAWay(g: GraphConfig, v: nat) returns (before: seq<nat>, after: seq<nat>)
    requires Linked(g) && v < |g|
    ensures Chain(g, before, 0, v) && Chain(g, after, v, |g| - 1)
  {
    before := WayTo(g, v);
    after := WayFrom(g, v);
  }

  lemma {:induction false} WayTo(g: GraphConfig, v: nat) returns (nodes: seq<nat>)
    requires Linked(g) && v < |g|
    ensures Chain(g, nodes, 0, v)
    decreases v
  {
    if v == 0 {
      nodes := [0];
    } else {
      assert HasIncoming(g, v);
      var u: nat :| Leads(g, u, v);
      var k :| 0 <= k < |g[u]| && g[u][k].next == v;
      assert u < g[u][k].next;
      var init := WayTo(g, u);
      nodes := init + [v];
    }
  }

  lemma {:induction false} WayFrom(g: GraphConfig, v: nat) returns (nodes: seq<nat>)
    requires Linked(g) && v < |g|
    ensures Chain(g, nodes, v, |g| - 1)
    decreases |g| - v
  {
    if v == |g| - 1 {
      nodes := [v];
    } else {
      var w := g[v][0].next;
      var rest := WayFrom(g, w);
      nodes := [v] + rest;
      assert Leads(g, v, w);
    }
  }

  /** The first node is the only one that nothing leads to, the last the only one without edges. */
  lemma OnlySourceOnlySink(g: GraphConfig, v: nat)
    requires Linked(g) && v < |g|
    ensures !HasIncoming(g, v) <==> v == 0
    ensures g[v] == [] <==> v == |g| - 1
  {
    if u: nat :| Leads(g, u, v) {
      var k :| 0 <= k < |g[u]| && g[u][k].next == v;
      assert u < g[u][k].next;
    }
    LastHasNoEdges(g);
  }
}
