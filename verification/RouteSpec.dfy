/**
 The route graph as values: edges with their virtual queues, the time a packet takes over a
 path, and which paths are allowed.  Times are fixed-point milliseconds, 2^16 to one.
 */
module RouteSpec {
  import opened Options

  const FIXED_ONE: nat := 0x1_0000
  const LOSS_ONE: nat := 65535
  const DEFAULT_CAPACITY_KBPS: nat := 50_000
  const DEFAULT_LATENCY_MS: nat := 50
  const COOLDOWN_INITIAL_MS: nat := 50
  const COOLDOWN_MAX_MS: nat := 200
  const U32_SPAN: nat := 0x1_0000_0000
  const MAX_PACKET: nat := 0x1_0000

  /** The largest u64; an arrival of this value means that no path has been found. */
  const NEVER: nat := 0xFFFF_FFFF_FFFF_FFFF

  datatype Edge = Edge(
    channelId: nat, next: nat, capacityKbps: nat, latencyMs: nat,
    virtualFreeAt: nat, loss: nat, cooldownUntil: nat, retryDelayMs: nat,
    lastSampled: Option<nat>, lastObservationAt: Option<nat>)

  type Graph = seq<seq<Edge>>

  /** An edge as the shell configures it; a hint of zero stands for the default. */
  datatype EdgeConfig = EdgeConfig(channelId: nat, next: nat, capacityHint: nat, latencyHint: nat)

  type GraphConfig = seq<seq<EdgeConfig>>

  datatype EdgeId = EdgeId(node: nat, edge: nat)

  predicate IsEdge(g: Graph, id: EdgeId) { id.node < |g| && id.edge < |g[id.node]| }

  function At(g: Graph, id: EdgeId): Edge
    requires IsEdge(g, id)
  {
    g[id.node][id.edge]
  }

  function With(g: Graph, id: EdgeId, e: Edge): (g': Graph)
    requires IsEdge(g, id)
    ensures |g'| == |g| && forall u :: 0 <= u < |g| ==> |g'[u]| == |g[u]|
    ensures At(g', id) == e
    ensures forall other :: IsEdge(g, other) && other != id ==> At(g', other) == At(g, other)
  {
    g[id.node := g[id.node][id.edge := e]]
  }

  predicate EdgeOk(e: Edge) {
    && 0 < e.capacityKbps < U32_SPAN && e.latencyMs < U32_SPAN
    && e.loss <= LOSS_ONE
    && COOLDOWN_INITIAL_MS <= e.retryDelayMs <= COOLDOWN_MAX_MS
  }

  /** The nodes are in topological order; every node but the last has a way onward. */
  ghost predicate Topological(g: Graph) {
    && |g| >= 2
    && (forall id :: IsEdge(g, id) ==> id.node < At(g, id).next < |g|)
    && (forall u :: 0 <= u < |g| - 1 ==> g[u] != [])
  }

  /** Only the endpoint's own edges are ever in cooldown. */
  ghost predicate CooldownIsLocal(g: Graph) {
    forall id :: IsEdge(g, id) && id.node != 0 ==> At(g, id).cooldownUntil == 0
  }

  ghost predicate GraphOk(g: Graph) {
    && Topological(g)
    && CooldownIsLocal(g)
    && forall id :: IsEdge(g, id) ==> EdgeOk(At(g, id))
  }

  /** What the planner relies on in a configured graph. */
  ghost predicate ConfigOk(config: GraphConfig) {
    && |config| >= 2
    && (forall u :: 0 <= u < |config| - 1 ==> config[u] != [])
    && (forall u, k :: 0 <= u < |config| && 0 <= k < |config[u]| ==> u < config[u][k].next < |config|)
  }

  lemma NextIsLater(g: GraphConfig, u: nat, k: nat)
    requires forall u, k :: 0 <= u < |g| && 0 <= k < |g[u]| ==> u < g[u][k].next < |g|
    requires u < |g| && k < |g[u]|
    ensures u < g[u][k].next < |g|
  {
  }

  lemma LastHasNoEdges(g: GraphConfig)
    requires |g| > 0 && forall u, k :: 0 <= u < |g| && 0 <= k < |g[u]| ==> u < g[u][k].next < |g|
    ensures g[|g| - 1] == []
  {
    if g[|g| - 1] != [] { NextIsLater(g, |g| - 1, 0); }
  }

  // ------------------------------------------------------------------ service times

  function Penalty(loss: nat): nat { FIXED_ONE + 15 * loss * loss * FIXED_ONE / (LOSS_ONE * LOSS_ONE) }

  function EffectiveCapacity(capacity: nat, loss: nat): (rate: nat)
    ensures rate >= 1
  {
    var rate := capacity * FIXED_ONE / Penalty(loss);
    if rate > 1 then rate else 1
  }

  function DivCeil(a: nat, b: nat): nat
    requires b > 0
  {
    (a + b - 1) / b
  }

  function SerializationTime(e: Edge, bytes: nat): nat {
    DivCeil(bytes * 8 * FIXED_ONE, EffectiveCapacity(e.capacityKbps, e.loss))
  }

  function Latency(e: Edge): nat { e.latencyMs * FIXED_ONE }

  lemma TimesMonotone(d: nat, x: nat, y: nat)
    requires x <= y
    ensures d * x <= d * y && x * d <= y * d
  {
  }

  lemma QuotientAtMost(a: nat, d: nat, q: nat)
    requires d > 0 && a < d * (q + 1)
    ensures a / d <= q
  {
    assert a == d * (a / d) + a % d;
    if a / d >= q + 1 { TimesMonotone(d, q + 1, a / d); }
  }

  lemma QuotientAtLeast(a: nat, d: nat, q: nat)
    requires d > 0 && a >= d * q
    ensures a / d >= q
  {
    assert a == d * (a / d) + a % d;
    if a / d + 1 <= q { TimesMonotone(d, a / d + 1, q); }
  }

  lemma DivMonotone(a: nat, b: nat, d: nat)
    requires a <= b && d > 0
    ensures a / d <= b / d
  {
    assert b == d * (b / d) + b % d;
    QuotientAtMost(a, d, b / d);
  }

  lemma DivAntitone(a: nat, d: nat, d': nat)
    requires 0 < d <= d'
    ensures a / d' <= a / d
  {
    assert a == d * (a / d) + a % d;
    TimesMonotone(a / d + 1, d, d');
    QuotientAtMost(a, d', a / d);
  }

  /** The service penalty runs from onefold without loss to sixteenfold at full loss. */
  lemma PenaltyRange(loss: nat)
    requires loss <= LOSS_ONE
    ensures FIXED_ONE <= Penalty(loss) <= 16 * FIXED_ONE
    ensures Penalty(0) == FIXED_ONE && Penalty(LOSS_ONE) == 16 * FIXED_ONE
  {
    Squares(loss, LOSS_ONE);
    DivMonotone(15 * loss * loss * FIXED_ONE, 15 * LOSS_ONE * LOSS_ONE * FIXED_ONE, LOSS_ONE * LOSS_ONE);
  }

  lemma Squares(a: nat, b: nat)
    requires a <= b
    ensures 15 * a * a * FIXED_ONE <= 15 * b * b * FIXED_ONE
  {
    assert a * a <= b * b by { assert a * a <= a * b <= b * b; }
    assert 15 * a * a == 15 * (a * a) && 15 * b * b == 15 * (b * b);
  }

  /** A lossier edge is never predicted to be faster. */
  lemma SerializationMonotoneInLoss(e: Edge, loss: nat, bytes: nat)
    requires e.loss <= loss
    ensures SerializationTime(e, bytes) <= SerializationTime(e.(loss := loss), bytes)
  {
    Squares(e.loss, loss);
    DivMonotone(15 * e.loss * e.loss * FIXED_ONE, 15 * loss * loss * FIXED_ONE, LOSS_ONE * LOSS_ONE);
    DivAntitone(e.capacityKbps * FIXED_ONE, Penalty(e.loss), Penalty(loss));
    DivCeilAntitone(bytes * 8 * FIXED_ONE,
                    EffectiveCapacity(e.capacityKbps, loss), EffectiveCapacity(e.capacityKbps, e.loss));
  }

  lemma DivCeilAntitone(a: nat, d: nat, d': nat)
    requires 0 < d <= d'
    ensures DivCeil(a, d') <= DivCeil(a, d)
  {
    if a > 0 {
      CeilIsFloorPlusOne(a, d);
      CeilIsFloorPlusOne(a, d');
      DivAntitone(a - 1, d, d');
    }
  }

  lemma CeilIsFloorPlusOne(a: nat, d: nat)
    requires a > 0 && d > 0
    ensures DivCeil(a, d) == (a - 1) / d + 1
  {
    var q, r := (a - 1) / d, (a - 1) % d;
    assert a - 1 == d * q + r;
    assert a + d - 1 == d * (q + 1) + r;
    QuotientAtMost(a + d - 1, d, q + 1);
    QuotientAtLeast(a + d - 1, d, q + 1);
  }

  /** The worst service time of one packet and the worst latency of one edge. */
  const MAX_SERVICE: nat := MAX_PACKET * 8 * FIXED_ONE
  const MAX_LATENCY: nat := U32_SPAN * FIXED_ONE

  lemma ServiceIsBounded(e: Edge, bytes: nat)
    requires bytes <= MAX_PACKET && e.latencyMs < U32_SPAN
    ensures SerializationTime(e, bytes) <= MAX_SERVICE && Latency(e) <= MAX_LATENCY
  {
    DivCeilAntitone(bytes * 8 * FIXED_ONE, 1, EffectiveCapacity(e.capacityKbps, e.loss));
  }

  // ------------------------------------------------------------------ paths

  /** What a route is asked for. */
  datatype Query = Query(g: Graph, elapsedMs: nat, bytes: nat, forced: Option<EdgeId>)

  predicate Allowed(g: Graph, elapsedMs: nat, id: EdgeId)
    requires IsEdge(g, id)
  {
    elapsedMs >= At(g, id).cooldownUntil
  }

  /** An edge that may be used now. */
  predicate Usable(g: Graph, elapsedMs: nat, id: EdgeId) { IsEdge(g, id) && Allowed(g, elapsedMs, id) }

  /** A connected path of usable edges from the source to `node`. */
  predicate Path(g: Graph, elapsedMs: nat, p: seq<EdgeId>, node: nat) {
    if p == [] then node == 0
    else
      var last := p[|p| - 1];
      Usable(g, elapsedMs, last) && At(g, last).next == node && Path(g, elapsedMs, p[..|p| - 1], last.node)
  }

  function Max(a: nat, b: nat): nat { if a > b then a else b }

  /** A packet queues behind what the edge has already been promised. */
  function Finish(e: Edge, arrival: nat, bytes: nat): nat {
    Max(arrival, e.virtualFreeAt) + SerializationTime(e, bytes)
  }

  function Extend(e: Edge, arrival: nat, bytes: nat): nat { Finish(e, arrival, bytes) + Latency(e) }

  /** The predicted arrival time at the end of a path. */
  function Arrival(g: Graph, elapsedMs: nat, bytes: nat, p: seq<EdgeId>): nat
    requires forall i :: 0 <= i < |p| ==> IsEdge(g, p[i])
  {
    if p == [] then elapsedMs * FIXED_ONE
    else Extend(At(g, p[|p| - 1]), Arrival(g, elapsedMs, bytes, p[..|p| - 1]), bytes)
  }

  lemma {:induction false} PathEdges(g: Graph, elapsedMs: nat, p: seq<EdgeId>, node: nat)
    requires Path(g, elapsedMs, p, node)
    ensures forall i :: 0 <= i < |p| ==> Usable(g, elapsedMs, p[i])
  {
    if p == [] {
    } else {
      PathEdges(g, elapsedMs, p[..|p| - 1], p[|p| - 1].node);
    }
  }

  /** Along a path the nodes rise, so no edge occurs twice. */
  lemma {:induction false} PathRises(g: Graph, elapsedMs: nat, p: seq<EdgeId>, node: nat)
    requires Topological(g) && Path(g, elapsedMs, p, node)
    ensures forall i :: 0 <= i < |p| ==> p[i].node < node
    ensures forall i, j :: 0 <= i < j < |p| ==> p[i].node < p[j].node
    ensures |p| <= node
  {
    if p == [] {
    } else {
      PathRises(g, elapsedMs, p[..|p| - 1], p[|p| - 1].node);
    }
  }

  /** A route reaches the last node and contains the forced edge, if there is one. */
  ghost predicate Route(q: Query, p: seq<EdgeId>) {
    && |q.g| > 0
    && Path(q.g, q.elapsedMs, p, |q.g| - 1)
    && (q.forced.Some? ==> q.forced.value in p)
  }

  /** The predicted arrival of a path of usable edges. */
  ghost function Predicted(q: Query, p: seq<EdgeId>): nat
    requires exists node :: Path(q.g, q.elapsedMs, p, node)
  {
    var node :| Path(q.g, q.elapsedMs, p, node);
    PathEdges(q.g, q.elapsedMs, p, node);
    Arrival(q.g, q.elapsedMs, q.bytes, p)
  }

  /** No route arrives earlier. */
  ghost predicate Earliest(q: Query, p: seq<EdgeId>) {
    && Route(q, p)
    && forall p' :: Route(q, p') ==> Predicted(q, p) <= Predicted(q, p')
  }

  // ------------------------------------------------------------------ reachability

  ghost predicate Reachable(g: Graph, elapsedMs: nat, node: nat) {
    exists p :: Path(g, elapsedMs, p, node)
  }

  lemma ReachableStep(g: Graph, elapsedMs: nat, id: EdgeId)
    requires Usable(g, elapsedMs, id) && Reachable(g, elapsedMs, id.node)
    ensures Reachable(g, elapsedMs, At(g, id).next)
  {
    var p: seq<EdgeId> :| Path(g, elapsedMs, p, id.node);
    assert (p + [id])[..|p|] == p;
    assert Path(g, elapsedMs, p + [id], At(g, id).next);
  }

  lemma SourceReachable(g: Graph, elapsedMs: nat)
    ensures Reachable(g, elapsedMs, 0)
  {
    assert Path(g, elapsedMs, [], 0);
  }

  /** Away from the source nothing is in cooldown, so every node has a usable way to the end. */
  lemma {:induction false} WayOnward(g: Graph, elapsedMs: nat, p: seq<EdgeId>, node: nat) returns (r: seq<EdgeId>)
    requires GraphOk(g) && Path(g, elapsedMs, p, node) && 0 < node < |g|
    ensures p <= r && Path(g, elapsedMs, r, |g| - 1)
    decreases |g| - node
  {
    if node == |g| - 1 {
      r := p;
    } else {
      var id := EdgeId(node, 0);
      assert g[node] != [] && IsEdge(g, id);
      var p' := p + [id];
      assert p'[..|p|] == p;
      r := WayOnward(g, elapsedMs, p', At(g, id).next);
      assert p <= p' <= r;
    }
  }

  ghost predicate AllLocalInCooldown(g: Graph, elapsedMs: nat)
    requires |g| > 0
  {
    forall k :: 0 <= k < |g[0]| ==> !Allowed(g, elapsedMs, EdgeId(0, k))
  }

  /** Some route exists unless all of the endpoint's own edges are in cooldown. */
  lemma RouteExistsIff(g: Graph, elapsedMs: nat, bytes: nat)
    requires GraphOk(g)
    ensures (exists p :: Route(Query(g, elapsedMs, bytes, None), p)) <==> !AllLocalInCooldown(g, elapsedMs)
  {
    var q := Query(g, elapsedMs, bytes, None);
    if !AllLocalInCooldown(g, elapsedMs) {
      var k :| 0 <= k < |g[0]| && Allowed(g, elapsedMs, EdgeId(0, k));
      var r := LocalEdgeLeadsOn(g, elapsedMs, k);
      assert Route(q, r);
    }
    if p :| Route(q, p) {
      FirstIsLocal(g, elapsedMs, p, |g| - 1);
    }
  }

  lemma LocalEdgeLeadsOn(g: Graph, elapsedMs: nat, k: nat) returns (r: seq<EdgeId>)
    requires GraphOk(g) && k < |g[0]| && Allowed(g, elapsedMs, EdgeId(0, k))
    ensures Path(g, elapsedMs, r, |g| - 1)
  {
    var id := EdgeId(0, k);
    assert IsEdge(g, id);
    assert [id][..0] == [];
    assert Path(g, elapsedMs, [id], At(g, id).next);
    r := WayOnward(g, elapsedMs, [id], At(g, id).next);
  }

  lemma {:induction false} FirstIsLocal(g: Graph, elapsedMs: nat, p: seq<EdgeId>, node: nat)
    requires Topological(g) && Path(g, elapsedMs, p, node) && node != 0
    ensures p != [] && p[0].node == 0 && Usable(g, elapsedMs, p[0])
  {
    var last := p[|p| - 1];
    if last.node == 0 {
      PathRises(g, elapsedMs, p[..|p| - 1], 0);
    } else {
      FirstIsLocal(g, elapsedMs, p[..|p| - 1], last.node);
    }
  }

  // ------------------------------------------------------------------ sampling

  /** An edge that a sample may be forced over. */
  ghost predicate Candidate(g: Graph, elapsedMs: nat, id: EdgeId) {
    && Usable(g, elapsedMs, id)
    && Reachable(g, elapsedMs, id.node)
  }

  /** Never sampled comes before any time. */
  predicate SampledBefore(a: Option<nat>, b: Option<nat>) {
    b.Some? && (a.None? || a.value < b.value)
  }

  predicate EarlierId(a: EdgeId, b: EdgeId) { a.node < b.node || (a.node == b.node && a.edge < b.edge) }

  /** The candidate sampled longest ago, the first of them in graph order. */
  ghost predicate LeastRecentlySampled(g: Graph, elapsedMs: nat, id: EdgeId) {
    && Candidate(g, elapsedMs, id)
    && forall other :: Candidate(g, elapsedMs, other) ==>
         && !SampledBefore(At(g, other).lastSampled, At(g, id).lastSampled)
         && (EarlierId(other, id) ==> SampledBefore(At(g, id).lastSampled, At(g, other).lastSampled))
  }

  /** Every candidate extends to a full route: forcing a sample over it cannot cost reachability. */
  lemma CandidateExtends(g: Graph, elapsedMs: nat, bytes: nat, id: EdgeId)
    requires GraphOk(g) && Candidate(g, elapsedMs, id)
    ensures exists p :: Route(Query(g, elapsedMs, bytes, Some(id)), p)
  {
    var p: seq<EdgeId> :| Path(g, elapsedMs, p, id.node);
    assert (p + [id])[..|p|] == p;
    var r := WayOnward(g, elapsedMs, p + [id], At(g, id).next);
    assert (p + [id])[|p|] == id && r[|p|] == id;
    assert Route(Query(g, elapsedMs, bytes, Some(id)), r);
  }

  /** There is a candidate unless all of the endpoint's own edges are in cooldown. */
  lemma CandidateExistsIff(g: Graph, elapsedMs: nat)
    requires GraphOk(g)
    ensures (exists id :: Candidate(g, elapsedMs, id)) <==> !AllLocalInCooldown(g, elapsedMs)
  {
    SourceReachable(g, elapsedMs);
    if !AllLocalInCooldown(g, elapsedMs) {
      var k :| 0 <= k < |g[0]| && Allowed(g, elapsedMs, EdgeId(0, k));
      assert Candidate(g, elapsedMs, EdgeId(0, k));
    }
    if id :| Candidate(g, elapsedMs, id) {
      if id.node == 0 {
        assert Allowed(g, elapsedMs, EdgeId(0, id.edge));
      } else {
        var p: seq<EdgeId> :| Path(g, elapsedMs, p, id.node);
        FirstIsLocal(g, elapsedMs, p, id.node);
        assert Allowed(g, elapsedMs, EdgeId(0, p[0].edge));
      }
    }
  }
}
