/** The route planner: earliest-arrival search, reservation, sampling, and loss feedback. */
module Routing {
  import opened Options
  import opened RouteFairness
  import opened RouteRuns
  import opened RouteSpec
  import opened RouteTable
  import opened RouteTimes
  import opened RouteUpdate

  class RoutePlanner {
    var nodes: Graph

    ghost var log: seq<Booking>
    /** All that has happened, and the graphs before, between and after. */
    ghost var events: seq<Event>
    ghost var history: seq<Graph>

    ghost predicate Valid()
      reads this
    {
      && GraphOk(nodes)
      && LogOk(nodes, log)
      && Run(history, events) && history[|events|] == nodes && Unsampled(history[0])
    }

    /** An edge as configured: a missing hint is replaced by a default. */
    static function NewEdge(c: EdgeConfig): Edge {
      Edge(c.channelId, c.next,
           if c.capacityHint == 0 then DEFAULT_CAPACITY_KBPS else c.capacityHint,
           if c.latencyHint == 0 then DEFAULT_LATENCY_MS else c.latencyHint,
           0, 0, 0, COOLDOWN_INITIAL_MS, None, None)
    }

    /** A hint is used unless it is zero; an edge starts idle, lossless, out of cooldown, and never sampled. */
    static lemma NewEdgeTakesHints(c: EdgeConfig)
      ensures var e := NewEdge(c);
              && e.channelId == c.channelId && e.next == c.next
              && e.capacityKbps == (if c.capacityHint > 0 then c.capacityHint else 50_000)
              && e.latencyMs == (if c.latencyHint > 0 then c.latencyHint else 50)
              && e.virtualFreeAt == e.loss == e.cooldownUntil == 0 && e.retryDelayMs == 50
              && e.lastSampled.None? && e.lastObservationAt.None?
    {
    }

    constructor (config: GraphConfig)
      requires ConfigOk(config)
      requires forall u, k :: 0 <= u < |config| && 0 <= k < |config[u]| ==>
        config[u][k].capacityHint < U32_SPAN && config[u][k].latencyHint < U32_SPAN
      ensures Valid() && log == [] && events == []
      ensures |nodes| == |config| && forall u :: 0 <= u < |config| ==> |nodes[u]| == |config[u]|
      ensures forall u, k :: 0 <= u < |config| && 0 <= k < |config[u]| ==> nodes[u][k] == NewEdge(config[u][k])
    {
      nodes := seq(|config|, u requires 0 <= u < |config| =>
        seq(|config[u]|, k requires 0 <= k < |config[u]| => NewEdge(config[u][k])));
      log := [];
      events, history := [], [nodes];
    }

    // ---------------------------------------------------------------- the search

    /** Tries one edge of a node that has been reached in the given state at `nodeArrival`. */
    method RelaxEdge(q: Query, a: array<seq<nat>>, p: array<seq<Option<Step>>>, st: Step, nodeArrival: nat)
      requires q.g == nodes && Shaped(q.g, a[..], p[..]) && IsEdge(q.g, st.id) && st.state < 2
      requires st.id.node < At(q.g, st.id).next < |q.g|
      requires a[st.id.node][st.state] == nodeArrival != NEVER
      modifies a, p
      ensures Relaxed(q, old(a[..]), old(p[..]), st, a[..], p[..])
      ensures a[st.id.node] == old(a[st.id.node])
    {
      if !Allowed(nodes, q.elapsedMs, st.id) { return; }
      var e := nodes[st.id.node][st.id.edge];
      var nextState := if q.forced == Some(st.id) then 1 else st.state;
      var start := if nodeArrival > e.virtualFreeAt then nodeArrival else e.virtualFreeAt;
      var candidate := start + SerializationTime(e, q.bytes) + Latency(e);
      if candidate < a[e.next][nextState] {
        a[e.next] := a[e.next][nextState := candidate];
        p[e.next] := p[e.next][nextState := Some(st)];
      }
    }

    /** Tries every edge of a node that has been reached in the given state. */
    method RelaxEdges(
        q: Query, a: array<seq<nat>>, p: array<seq<Option<Step>>>, node: nat, state: nat, ghost backlog: nat)
      requires q.g == nodes && node < |q.g| && state < 2
      requires Table(q, a[..], p[..], Step(state, EdgeId(node, 0)), backlog)
      requires a[node][state] != NEVER
      modifies a, p
      ensures Table(q, a[..], p[..], Step(state, EdgeId(node, |q.g[node]|)), backlog)
    {
      var nodeArrival := a[node][state];
      for edge := 0 to |nodes[node]|
        invariant Table(q, a[..], p[..], Step(state, EdgeId(node, edge)), backlog)
        invariant a[node][state] == nodeArrival
      {
        var st := Step(state, EdgeId(node, edge));
        ghost var was, wasP := a[..], p[..];
        assert IsEdge(q.g, st.id);
        RelaxEdge(q, a, p, st, nodeArrival);
        TableAfter(q, was, wasP, st, a[..], p[..], backlog);
      }
    }

    /** Tries both states of a node. */
    method RelaxNode(q: Query, a: array<seq<nat>>, p: array<seq<Option<Step>>>, node: nat, ghost backlog: nat)
      requires q.g == nodes && node < |q.g|
      requires Table(q, a[..], p[..], Step(0, EdgeId(node, 0)), backlog)
      modifies a, p
      ensures Table(q, a[..], p[..], Step(0, EdgeId(node + 1, 0)), backlog)
    {
      for state := 0 to if q.forced.Some? then 2 else 1
        invariant Table(q, a[..], p[..], Step(state, EdgeId(node, 0)), backlog)
      {
        if a[node][state] == NEVER {
          SkipTo(q, a[..], p[..], Step(state, EdgeId(node, 0)), Step(state + 1, EdgeId(node, 0)), backlog);
          continue;
        }
        RelaxEdges(q, a, p, node, state, backlog);
        SkipTo(q, a[..], p[..], Step(state, EdgeId(node, |q.g[node]|)), Step(state + 1, EdgeId(node, 0)), backlog);
      }
      SkipTo(q, a[..], p[..], Step(if q.forced.Some? then 2 else 1, EdgeId(node, 0)), Step(0, EdgeId(node + 1, 0)),
             backlog);
    }

    /** Follows the predecessors back to the source. */
    method Backtrack(q: Query, a: array<seq<nat>>, p: array<seq<Option<Step>>>, ghost backlog: nat)
      returns (path: seq<EdgeId>)
      requires Final(q, a[..], p[..], backlog)
      requires a[|q.g| - 1][FinalState(q)] != NEVER
      ensures path == Trace(q, a[..], p[..], backlog, |q.g| - 1, FinalState(q))
    {
      var node: nat, state: nat := |q.g| - 1, FinalState(q);
      ghost var whole := Trace(q, a[..], p[..], backlog, node, state);
      var found := [];
      while node != 0
        invariant node < |q.g| && state < 2 && a[node][state] != NEVER
        invariant whole == Trace(q, a[..], p[..], backlog, node, state) + Reversed(found)
        decreases node
      {
        assert Explained(q, a[..], p[..], Step(0, EdgeId(|q.g| - 1, 0)), node, state);
        var step := p[node][state].value;
        assert Reversed(found + [step.id]) == [step.id] + Reversed(found);
        found := found + [step.id];
        node, state := step.id.node, step.state;
      }
      path := Reversed(found);
    }

    static function Reversed(s: seq<EdgeId>): seq<EdgeId> {
      seq(|s|, i requires 0 <= i < |s| => s[|s| - 1 - i])
    }

    method FillTables(q: Query, ghost backlog: nat) returns (a: array<seq<nat>>, p: array<seq<Option<Step>>>)
      requires q.g == nodes && Sane(q, backlog)
      ensures Final(q, a[..], p[..], backlog)
    {
      a := new seq<nat>[|nodes|](_ => [NEVER, NEVER]);
      p := new seq<Option<Step>>[|nodes|](_ => [None, None]);
      a[0] := a[0][0 := q.elapsedMs * FIXED_ONE];
      EmptyTable(q, a[..], p[..], backlog);
      for node := 0 to |nodes| - 1
        invariant Table(q, a[..], p[..], Step(0, EdgeId(node, 0)), backlog)
      {
        RelaxNode(q, a, p, node, backlog);
      }
    }

    /**
     The earliest of all allowed routes, with the forced edge on it if there is one; equally
     early arrivals are decided by graph order.  `None` exactly when there is no route.
     */
    method CalculatePath(elapsedMs: nat, bytes: nat, forced: Option<EdgeId>, ghost backlog: nat)
      returns (path: Option<seq<EdgeId>>)
      requires Sane(Query(nodes, elapsedMs, bytes, forced), backlog)
      ensures path.None? ==> NoRoute(Query(nodes, elapsedMs, bytes, forced))
      ensures path.Some? ==> Best(Query(nodes, elapsedMs, bytes, forced), path.value)
    {
      var q := Query(nodes, elapsedMs, bytes, forced);
      var arrival, predecessor := FillTables(q, backlog);
      if arrival[|nodes| - 1][FinalState(q)] == NEVER {
        NoEntryNoRoute(q, arrival[..], predecessor[..], backlog);
        return None;
      }
      TraceIsBest(q, arrival[..], predecessor[..], backlog);
      var found := Backtrack(q, arrival, predecessor, backlog);
      return Some(found);
    }

    // ---------------------------------------------------------------- reservation

    /** Books the packet on one edge, behind what the edge was promised before. */
    method ReserveEdge(id: EdgeId, cursor: nat, elapsedMs: nat, bytes: nat, sample: bool) returns (cursor': nat)
      requires IsEdge(nodes, id)
      modifies `nodes
      ensures cursor' == Extend(old(At(nodes, id)), cursor, bytes)
      ensures nodes == With(old(nodes), id,
        BookedEdge(old(At(nodes, id)), Finish(old(At(nodes, id)), cursor, bytes), elapsedMs, sample))
    {
      var e := nodes[id.node][id.edge];
      var start := if cursor > e.virtualFreeAt then cursor else e.virtualFreeAt;
      var finished := start + SerializationTime(e, bytes);
      var latency := Latency(e);
      e := e.(virtualFreeAt := finished);
      if sample { e := e.(lastSampled := Some(elapsedMs)); }
      nodes := nodes[id.node := nodes[id.node][id.edge := e]];
      cursor' := finished + latency;
    }

    /** Books the packet on every edge of the path, one after the other. */
    method Reserve(path: seq<EdgeId>, elapsedMs: nat, bytes: nat, sample: bool)
      requires forall k :: 0 <= k < |path| ==> IsEdge(nodes, path[k])
      requires forall i, j :: 0 <= i < j < |path| ==> path[i] != path[j]
      modifies `nodes
      ensures Reserved(old(nodes), nodes, elapsedMs, bytes, sample, path)
    {
      ghost var g := nodes;
      ghost var es := BookedEdges(g, elapsedMs, bytes, sample, path);
      var cursor := elapsedMs * FIXED_ONE;
      for i := 0 to |path|
        invariant Placed(g, nodes, path, es, i)
        invariant cursor == Arrival(g, elapsedMs, bytes, path[..i])
      {
        PlacedNext(g, nodes, path, es, i);
        cursor := ReserveEdge(path[i], cursor, elapsedMs, bytes, sample);
        assert path[..i + 1][..i] == path[..i];
      }
      PlacedIsReserved(g, nodes, elapsedMs, bytes, sample, path);
    }

    // ---------------------------------------------------------------- sampling

    /** The candidates before `at` have been compared. */
    static ghost predicate Selected(g: Graph, elapsedMs: nat, at: EdgeId, selected: Option<EdgeId>) {
      match selected
      case None => forall id :: EarlierId(id, at) ==> !Candidate(g, elapsedMs, id)
      case Some(id) =>
        && Candidate(g, elapsedMs, id) && EarlierId(id, at)
        && forall other :: EarlierId(other, at) && Candidate(g, elapsedMs, other) ==>
          && !SampledBefore(At(g, other).lastSampled, At(g, id).lastSampled)
          && (EarlierId(other, id) ==> SampledBefore(At(g, id).lastSampled, At(g, other).lastSampled))
    }

    /** What is marked is reachable, and so is whatever an edge before `at` leads to. */
    static ghost predicate Marks(g: Graph, elapsedMs: nat, at: EdgeId, reachable: seq<bool>) {
      && |reachable| == |g| > 0 && reachable[0]
      && (forall v :: 0 <= v < |g| && reachable[v] ==> Reachable(g, elapsedMs, v))
      && (forall id :: EarlierId(id, at) && Usable(g, elapsedMs, id) && reachable[id.node] ==>
        At(g, id).next < |g| ==> reachable[At(g, id).next])
    }

    static lemma MarkedIfReachable(g: Graph, elapsedMs: nat, at: EdgeId, reachable: seq<bool>, v: nat)
      requires Topological(g) && Marks(g, elapsedMs, at, reachable) && v <= at.node && v < |g|
      requires Reachable(g, elapsedMs, v)
      ensures reachable[v]
    {
      var p: seq<EdgeId> :| Path(g, elapsedMs, p, v);
      PathRises(g, elapsedMs, p, v);
      if p != [] {
        var last := p[|p| - 1];
        assert Path(g, elapsedMs, p[..|p| - 1], last.node);
        MarkedIfReachable(g, elapsedMs, at, reachable, last.node);
      }
    }

    /** The usable edge of the first candidates that was sampled longest ago, if there is one. */
    method SamplingEdge(elapsedMs: nat) returns (selected: Option<EdgeId>)
      requires GraphOk(nodes)
      ensures selected.None? ==> forall id :: !Candidate(nodes, elapsedMs, id)
      ensures selected.Some? ==> LeastRecentlySampled(nodes, elapsedMs, selected.value)
    {
      var reachable := new bool[|nodes|](_ => false);
      reachable[0] := true;
      selected := None;
      SourceReachable(nodes, elapsedMs);
      var node := 0;
      while node < |nodes| - 1
        invariant node <= |nodes| - 1
        invariant Marks(nodes, elapsedMs, EdgeId(node, 0), reachable[..])
        invariant Selected(nodes, elapsedMs, EdgeId(node, 0), selected)
      {
        if !reachable[node] {
          Unreached(nodes, elapsedMs, node, reachable[..], selected);
          node := node + 1;
          continue;
        }
        selected := ScanEdges(elapsedMs, node, reachable, selected);
        NextNode(nodes, elapsedMs, node, reachable[..], selected);
        node := node + 1;
      }
      AllScanned(nodes, elapsedMs, selected);
    }

    static lemma Unreached(g: Graph, elapsedMs: nat, node: nat, reachable: seq<bool>, selected: Option<EdgeId>)
      requires Topological(g) && node < |g| && Marks(g, elapsedMs, EdgeId(node, 0), reachable) && !reachable[node]
      requires Selected(g, elapsedMs, EdgeId(node, 0), selected)
      ensures Marks(g, elapsedMs, EdgeId(node + 1, 0), reachable)
      ensures Selected(g, elapsedMs, EdgeId(node + 1, 0), selected)
    {
      if Reachable(g, elapsedMs, node) { MarkedIfReachable(g, elapsedMs, EdgeId(node, 0), reachable, node); }
    }

    static lemma NextNode(g: Graph, elapsedMs: nat, node: nat, reachable: seq<bool>, selected: Option<EdgeId>)
      requires node < |g|
      requires Marks(g, elapsedMs, EdgeId(node, |g[node]|), reachable)
      requires Selected(g, elapsedMs, EdgeId(node, |g[node]|), selected)
      ensures Marks(g, elapsedMs, EdgeId(node + 1, 0), reachable)
      ensures Selected(g, elapsedMs, EdgeId(node + 1, 0), selected)
    {
      forall id | EarlierId(id, EdgeId(node + 1, 0)) && IsEdge(g, id) ensures EarlierId(id, EdgeId(node, |g[node]|)) {
      }
    }

    static lemma AllScanned(g: Graph, elapsedMs: nat, selected: Option<EdgeId>)
      requires GraphOk(g) && Selected(g, elapsedMs, EdgeId(|g| - 1, 0), selected)
      ensures selected.None? ==> forall id :: !Candidate(g, elapsedMs, id)
      ensures selected.Some? ==> LeastRecentlySampled(g, elapsedMs, selected.value)
    {
      forall id | Candidate(g, elapsedMs, id) ensures EarlierId(id, EdgeId(|g| - 1, 0)) {
      }
    }

    /** Compares the edges of a reached node. */
    method ScanEdges(elapsedMs: nat, node: nat, reachable: array<bool>, sofar: Option<EdgeId>)
      returns (selected: Option<EdgeId>)
      requires GraphOk(nodes) && node < |nodes| && reachable.Length == |nodes| && reachable[node]
      requires Marks(nodes, elapsedMs, EdgeId(node, 0), reachable[..])
      requires Selected(nodes, elapsedMs, EdgeId(node, 0), sofar)
      modifies reachable
      ensures Marks(nodes, elapsedMs, EdgeId(node, |nodes[node]|), reachable[..])
      ensures Selected(nodes, elapsedMs, EdgeId(node, |nodes[node]|), selected)
    {
      selected := sofar;
      for edge := 0 to |nodes[node]|
        invariant reachable[node]
        invariant Marks(nodes, elapsedMs, EdgeId(node, edge), reachable[..])
        invariant Selected(nodes, elapsedMs, EdgeId(node, edge), selected)
      {
        var id := EdgeId(node, edge);
        ghost var marks, was := reachable[..], selected;
        if !Allowed(nodes, elapsedMs, id) {
          ScanSkips(nodes, elapsedMs, id, marks, was);
          continue;
        }
        assert IsEdge(nodes, id);
        reachable[nodes[node][edge].next] := true;
        ScanMarks(nodes, elapsedMs, id, marks);
        assert reachable[..] == marks[nodes[node][edge].next := true];
        ScanCompares(nodes, elapsedMs, id, was);
        if selected.None?
           || SampledBefore(nodes[node][edge].lastSampled, nodes[selected.value.node][selected.value.edge].lastSampled)
        {
          selected := Some(id);
        }
      }
    }

    static function NextId(id: EdgeId): EdgeId { EdgeId(id.node, id.edge + 1) }

    static lemma ScanSkips(g: Graph, elapsedMs: nat, id: EdgeId, marks: seq<bool>, selected: Option<EdgeId>)
      requires IsEdge(g, id) && !Allowed(g, elapsedMs, id)
      requires Marks(g, elapsedMs, id, marks) && Selected(g, elapsedMs, id, selected)
      ensures Marks(g, elapsedMs, NextId(id), marks) && Selected(g, elapsedMs, NextId(id), selected)
    {
    }

    static lemma ScanMarks(g: Graph, elapsedMs: nat, id: EdgeId, marks: seq<bool>)
      requires Topological(g) && Usable(g, elapsedMs, id) && Marks(g, elapsedMs, id, marks) && marks[id.node]
      ensures Marks(g, elapsedMs, NextId(id), marks[At(g, id).next := true])
    {
      ReachableStep(g, elapsedMs, id);
    }

    static lemma ScanCompares(g: Graph, elapsedMs: nat, id: EdgeId, selected: Option<EdgeId>)
      requires Candidate(g, elapsedMs, id) && Selected(g, elapsedMs, id, selected)
      ensures var better := selected.None? || SampledBefore(At(g, id).lastSampled, At(g, selected.value).lastSampled);
              Selected(g, elapsedMs, NextId(id), if better then Some(id) else selected)
    {
      forall other | EarlierId(other, NextId(id)) ensures EarlierId(other, id) || other == id {
      }
    }

    // ---------------------------------------------------------------- planning

    /**
     Plans and books a route.  A sample never costs reachability: with and without one there
     is no plan exactly when all of the endpoint's own edges are in cooldown.  What is promised
     on the edges now must leave room for one more plan below the end of 64 bits.
     */
    method BuildRoutePlan(elapsedMs: nat, bytes: nat, sample: bool, ghost backlog: nat)
      returns (plan: Option<seq<nat>>, ghost path: seq<EdgeId>)
      requires Valid() && bytes <= MAX_PACKET
      requires Backlogged(nodes, elapsedMs, backlog) && Fit(elapsedMs, backlog + |nodes|, |nodes|)
      modifies this
      ensures Valid()
      ensures plan.None? <==> AllLocalInCooldown(old(nodes), elapsedMs)
      ensures plan.None? ==> nodes == old(nodes) && log == old(log) && events == old(events)
      ensures plan.Some? ==> Booked(old(nodes), nodes, elapsedMs, bytes, sample, path)
      ensures plan.Some? ==> plan.value == ChannelsOf(old(nodes), path)
      ensures plan.None? <==> NoWayOut(old(nodes), elapsedMs)
      ensures plan.Some? ==> OutOfCooldown(old(nodes), elapsedMs, path)
      ensures plan.Some? && !sample ==> FastestTwins(old(nodes), elapsedMs, path)
      ensures plan.Some? ==> events == old(events) + [Plan(elapsedMs, bytes, sample, path)]
      ensures plan.Some? ==> log == old(log) + Bookings(old(nodes), elapsedMs, bytes, path)
      ensures Backlogged(nodes, elapsedMs, backlog + |nodes|)
    {
      path := [];
      CooldownIsNoWayOut(nodes, elapsedMs);
      MoreIsBacklogged(nodes, elapsedMs, backlog, backlog + |nodes|);
      CandidateExistsIff(nodes, elapsedMs);
      var forced := None;
      if sample {
        forced := SamplingEdge(elapsedMs);
        if forced.None? { return None, []; }
        CandidateExtends(nodes, elapsedMs, bytes, forced.value);
      }
      RouteExistsIff(nodes, elapsedMs, bytes);
      var edges := CalculatePath(elapsedMs, bytes, forced, backlog);
      if edges.None? { return None, []; }
      path := edges.value;
      assert Chosen(nodes, elapsedMs, bytes, sample, path);
      ghost var g := nodes;
      var channels := Book(edges.value, elapsedMs, bytes, sample);
      plan := Some(channels);
      ReservedBacklog(g, nodes, elapsedMs, bytes, sample, path, |g| - 1, backlog);
      ChosenIsOut(g, elapsedMs, bytes, sample, path);
      if !sample { FasterIsPlanned(g, elapsedMs, bytes, path); }
    }

    method Book(path: seq<EdgeId>, elapsedMs: nat, bytes: nat, sample: bool) returns (plan: seq<nat>)
      requires Valid() && bytes <= MAX_PACKET
      requires Path(nodes, elapsedMs, path, |nodes| - 1) && Chosen(nodes, elapsedMs, bytes, sample, path)
      modifies this
      ensures Valid()
      ensures Booked(old(nodes), nodes, elapsedMs, bytes, sample, path)
      ensures plan == ChannelsOf(old(nodes), path)
      ensures events == old(events) + [Plan(elapsedMs, bytes, sample, path)]
      ensures log == old(log) + Bookings(old(nodes), elapsedMs, bytes, path)
    {
      ghost var g := nodes;
      PathEdges(g, elapsedMs, path, |g| - 1);
      PathRises(g, elapsedMs, path, |g| - 1);
      Reserve(path, elapsedMs, bytes, sample);
      ChannelsStay(g, nodes, elapsedMs, bytes, sample, path);
      plan := ChannelsOf(nodes, path);
      BookKeepsValid(g, nodes, elapsedMs, bytes, sample, path, log);
      log := log + Bookings(g, elapsedMs, bytes, path);
      Record(Plan(elapsedMs, bytes, sample, path), g);
    }

    /** Notes down what has happened to the graph. */
    ghost method Record(e: Event, g: Graph)
      requires Run(history, events) && history[|events|] == g && Next(g, e, nodes)
      modifies `events, `history
      ensures Run(history, events) && history[|events|] == nodes
      ensures events == old(events) + [e] && history == old(history) + [nodes]
    {
      RunExtends(history, events, e, nodes);
      events, history := events + [e], history + [nodes];
    }

    static lemma ChannelsStay(g: Graph, g': Graph, elapsedMs: nat, bytes: nat, sample: bool, path: seq<EdgeId>)
      requires forall k :: 0 <= k < |path| ==> IsEdge(g, path[k])
      requires Reserved(g, g', elapsedMs, bytes, sample, path)
      ensures forall k :: 0 <= k < |path| ==> IsEdge(g', path[k])
      ensures ChannelsOf(g', path) == ChannelsOf(g, path)
    {
    }

    static lemma BookKeepsValid(
        g: Graph, g': Graph, elapsedMs: nat, bytes: nat, sample: bool, path: seq<EdgeId>,
        log: seq<Booking>)
      requires GraphOk(g) && LogOk(g, log)
      requires bytes <= MAX_PACKET && Path(g, elapsedMs, path, |g| - 1)
      requires forall k :: 0 <= k < |path| ==> IsEdge(g, path[k])
      requires Reserved(g, g', elapsedMs, bytes, sample, path)
      ensures GraphOk(g')
      ensures LogOk(g', log + Bookings(g, elapsedMs, bytes, path))
    {
      PathRises(g, elapsedMs, path, |g| - 1);
      ReservedKeepsGraph(g, g', elapsedMs, bytes, sample, path);
      BookingsKeepLog(g, g', log, elapsedMs, bytes, sample, path);
    }

    // ---------------------------------------------------------------- fairness

    /**
     What this planner has itself done is fair: since any moment of its life, once it has planned
     as many samples as it has edges, an edge that was a candidate each time lies on one of them.
     The samples before that moment were at earlier times.
     */
    lemma HistoryIsFair(first: nat, start: nat, x: EdgeId)
      requires Valid() && first <= |events| && IsEdge(history[first], x)
      requires SampleCount(events[first..]) >= |EdgeIds(history[first])|
      requires forall i :: 0 <= i < first && events[i].Samples() ==> events[i].elapsedMs < start
      requires forall i :: first <= i < |events| && events[i].Samples() ==>
        events[i].elapsedMs >= start && Candidate(history[i], events[i].elapsedMs, x)
      ensures exists i :: first <= i < |events| && events[i].Samples() && x in events[i].path
    {
      SampledEarlier(history, events, start, first);
      var run, since := history[first..], events[first..];
      forall i | 0 <= i < |since| ensures NextAt(run, since, i) {
        assert NextAt(history, events, first + i);
      }
      SamplingIsFair(run, since, start, x);
      var i :| 0 <= i < |since| && since[i].Samples() && x in since[i].path;
      assert events[first + i] == since[i];
    }

    // ---------------------------------------------------------------- failures and feedback

    /** The position of the first edge on a channel. */
    method FirstOn(node: nat, channelId: nat) returns (edge: nat)
      requires node < |nodes| && exists k :: 0 <= k < |nodes[node]| && nodes[node][k].channelId == channelId
      ensures IsFirstOn(nodes[node], channelId, edge)
    {
      edge := 0;
      while nodes[node][edge].channelId != channelId
        invariant edge < |nodes[node]|
        invariant forall j :: 0 <= j < edge ==> nodes[node][j].channelId != channelId
        decreases |nodes[node]| - edge
      {
        edge := edge + 1;
      }
    }

    /** A packet could not be sent on one of the endpoint's own channels. */
    method NoteLocalSendFailure(channelId: nat, elapsedMs: nat)
      requires Valid() && exists k :: 0 <= k < |nodes[0]| && nodes[0][k].channelId == channelId
      modifies `nodes, `events, `history
      ensures Valid() && SameSchedule(old(nodes), nodes)
      ensures ChannelFailed(old(nodes), nodes, channelId, elapsedMs)
      ensures events == old(events) + [Failure(channelId, elapsedMs)]
    {
      ghost var g := nodes;
      var edge := FirstOn(0, channelId);
      var e := nodes[0][edge];
      ghost var before := e;
      assert IsEdge(g, EdgeId(0, edge)) && EdgeOk(At(g, EdgeId(0, edge)));
      if e.lastObservationAt.None? || elapsedMs >= e.lastObservationAt.value {
        e := e.(loss := e.loss + (LOSS_ONE - e.loss) / 2, lastObservationAt := Some(elapsedMs));
      }
      e := e.(cooldownUntil := elapsedMs + e.retryDelayMs);
      e := e.(retryDelayMs := if e.retryDelayMs * 2 < COOLDOWN_MAX_MS then e.retryDelayMs * 2 else COOLDOWN_MAX_MS);
      assert e == Failed(before, elapsedMs);
      nodes := nodes[0 := nodes[0][edge := e]];
      LocalChangeKeepsValid(g, nodes, EdgeId(0, edge), e, log);
      assert nodes == With(g, EdgeId(0, edge), Failed(g[0][edge], elapsedMs));
      Record(Failure(channelId, elapsedMs), g);
    }

    static lemma LocalChangeKeepsValid(
        g: Graph, g': Graph, id: EdgeId, e: Edge, log: seq<Booking>)
      requires GraphOk(g) && IsEdge(g, id) && id.node == 0 && g' == With(g, id, e)
      requires LogOk(g, log)
      requires EdgeOk(e) && SameRoad(At(g, id), e)
      requires e.virtualFreeAt == At(g, id).virtualFreeAt && e.lastSampled == At(g, id).lastSampled
      ensures GraphOk(g') && SameSchedule(g, g')
      ensures LogOk(g', log)
    {
      forall other | IsEdge(g, other)
        ensures SameRoad(At(g, other), At(g', other)) && EdgeOk(At(g', other))
        ensures other.node != 0 ==> At(g', other).cooldownUntil == 0
      {
      }
      SameRoadsKeepShape(g, g');
      ScheduleKeepsValid(g, g', log);
    }

    static lemma ScheduleKeepsValid(g: Graph, g': Graph, log: seq<Booking>)
      requires SameSchedule(g, g')
      requires LogOk(g, log)
      ensures LogOk(g', log)
    {
      forall id | IsEdge(g', id)
        ensures IsEdge(g, id)
      {
      }
    }

    method NoteHop(id: EdgeId, at: nat, success: bool) returns (accepted: bool)
      requires IsEdge(nodes, id) && At(nodes, id).loss <= LOSS_ONE
      modifies `nodes
      ensures nodes == With(old(nodes), id, Observed(At(old(nodes), id), at, success))
      ensures accepted == !Stale(At(old(nodes), id), at)
    {
      var e := nodes[id.node][id.edge];
      if e.lastObservationAt.Some? && at < e.lastObservationAt.value {
        assert nodes[id.node][id.edge := e] == nodes[id.node];
        return false;
      }
      e := e.(loss := if success then e.loss * 3 / 4 else e.loss + (LOSS_ONE - e.loss) / 16);
      e := e.(lastObservationAt := Some(at));
      nodes := nodes[id.node := nodes[id.node][id.edge := e]];
      return true;
    }

    /**
     The result of a sample, for every edge of its plan.  `walk` is the sequence of edges that
     the plan names; a plan built by this planner always names one.
     */
    method NoteFeedback(plan: seq<nat>, at: nat, success: bool, ghost walk: seq<EdgeId>)
      requires Valid() && Walk(nodes, plan, 0, walk)
      modifies `nodes, `events, `history
      ensures Valid() && SameSchedule(old(nodes), nodes)
      ensures forall i :: 0 <= i < |walk| ==> IsEdge(old(nodes), walk[i])
      ensures Noted(old(nodes), nodes, walk, at, success)
      ensures events == old(events) + [Feedback(plan, at, success)]
    {
      ghost var g := nodes;
      NoteHops(plan, at, success, walk);
      NotedKeepsGraph(g, nodes, plan, walk, at, success);
      ScheduleKeepsValid(g, nodes, log);
      Record(Feedback(plan, at, success), g);
    }

    /** Follows the plan from the source, edge by edge. */
    method NoteHops(plan: seq<nat>, at: nat, success: bool, ghost walk: seq<EdgeId>)
      requires GraphOk(nodes) && Walk(nodes, plan, 0, walk)
      modifies `nodes
      ensures forall i :: 0 <= i < |walk| ==> IsEdge(old(nodes), walk[i])
      ensures Noted(old(nodes), nodes, walk, at, success)
    {
      ghost var g := nodes;
      WalkRises(g, plan, 0, walk);
      ghost var es := ObservedEdges(g, walk, at, success);
      var node: nat := 0;
      var first := None;
      var acceptedFirst := false;
      for i := 0 to |plan|
        invariant Placed(g, nodes, walk, es, i)
        invariant Walk(g, plan[i..], node, walk[i..])
        invariant first == if i == 0 then None else Some(walk[0])
        invariant acceptedFirst == (i > 0 && !Stale(At(g, walk[0]), at))
      {
        NextHop(g, nodes, plan, walk, es, i, node);
        PlacedNext(g, nodes, walk, es, i);
        assert EdgeOk(At(g, walk[i]));
        var edge := FirstOn(node, plan[i]);
        var id := EdgeId(node, edge);
        assert id == walk[i] by { SameFirst(g[node], plan[i], edge, walk[i].edge); }
        var isFirst := first.None?;
        if isFirst { first := Some(id); }
        node := nodes[node][edge].next;
        var accepted := NoteHop(id, at, success);
        acceptedFirst := acceptedFirst || (accepted && isFirst);
      }
      PlacedIsNoted(g, nodes, walk, at, success);
      if success && acceptedFirst {
        Reset(first.value);
      }
    }

    static lemma SameFirst(edges: seq<Edge>, channel: nat, j: nat, k: nat)
      requires IsFirstOn(edges, channel, j) && IsFirstOn(edges, channel, k)
      ensures j == k
    {
    }

    method Reset(id: EdgeId)
      requires IsEdge(nodes, id)
      modifies `nodes
      ensures nodes == With(old(nodes), id,
               At(old(nodes), id).(cooldownUntil := 0, retryDelayMs := COOLDOWN_INITIAL_MS))
    {
      var e := nodes[id.node][id.edge];
      nodes := nodes[id.node := nodes[id.node][id.edge := e.(cooldownUntil := 0, retryDelayMs := COOLDOWN_INITIAL_MS)]];
    }
  }
}
