/**
 When a packet arrives, told in the fields of the edges: latency, capacity, loss, and the time until
 which an edge is promised to others.
 */
module RouteTimes {
  import opened Options
  import opened RouteSpec
  import opened RouteTable
  import opened RouteRuns

  /** One and fifteen times the square of the loss, in fixed point and rounded down. */
  predicate IsPenalty(penalty: nat, loss: nat) {
    && penalty >= 0x1_0000
    && (penalty - 0x1_0000) * 0xFFFE_0001 <= 15 * loss * loss * 0x1_0000 < (penalty - 0xFFFF) * 0xFFFE_0001
  }

  /** The capacity divided by the penalty, rounded down, and at least one. */
  predicate IsRate(rate: nat, capacityKbps: nat, penalty: nat) {
    && capacityKbps * 0x1_0000 < (rate + 1) * penalty
    && (rate * penalty <= capacityKbps * 0x1_0000 || rate == 1)
    && rate >= 1
  }

  /** The least time in which so many bits are served. */
  predicate Serves(rate: nat, time: nat, bits: nat) { rate * (time - 1) < bits <= rate * time }

  /** A service time of the edge for a packet of this size, in fixed-point milliseconds. */
  ghost predicate ServiceTime(e: Edge, bytes: nat, time: nat) {
    && (e.loss == 0 ==> Serves(e.capacityKbps, time, bytes * 8 * 0x1_0000))
    && exists rate, penalty ::
         IsPenalty(penalty, e.loss) && IsRate(rate, e.capacityKbps, penalty) && Serves(rate, time, bytes * 8 * 0x1_0000)
  }

  /** A packet waits until the edge is free, is served, and travels. */
  ghost predicate HopTakes(e: Edge, bytes: nat, arrival: nat, service: nat, next: nat) {
    && ServiceTime(e, bytes, service)
    && next == (if arrival > e.virtualFreeAt then arrival else e.virtualFreeAt) + service + e.latencyMs * 0x1_0000
  }

  /** The arrivals at the nodes of a path, and the service times between them. */
  ghost predicate Timetable(g: Graph, elapsedMs: nat, bytes: nat, p: seq<EdgeId>, at: seq<nat>, service: seq<nat>)
    requires forall i :: 0 <= i < |p| ==> IsEdge(g, p[i])
  {
    && |at| == |p| + 1 && |service| == |p|
    && at[0] == elapsedMs * 0x1_0000
    && forall i :: 0 <= i < |p| ==> HopTakes(At(g, p[i]), bytes, at[i], service[i], at[i + 1])
  }

  lemma QuotientBounds(a: nat, d: nat)
    requires d > 0
    ensures (a / d) * d <= a < (a / d + 1) * d
  {
    assert a == d * (a / d) + a % d;
    assert (a / d + 1) * d == (a / d) * d + d;
  }

  lemma CeilBounds(bits: nat, rate: nat)
    requires rate > 0
    ensures Serves(rate, DivCeil(bits, rate), bits)
  {
    QuotientBounds(bits + rate - 1, rate);
    var time := DivCeil(bits, rate);
    assert rate * (time - 1) == time * rate - rate && (time + 1) * rate == rate * time + rate;
  }

  lemma PenaltyIs(loss: nat)
    ensures IsPenalty(Penalty(loss), loss)
  {
    QuotientBounds(15 * loss * loss * FIXED_ONE, LOSS_ONE * LOSS_ONE);
  }

  lemma RateIs(capacity: nat, loss: nat)
    ensures IsRate(EffectiveCapacity(capacity, loss), capacity, Penalty(loss))
  {
    var penalty := Penalty(loss);
    QuotientBounds(capacity * FIXED_ONE, penalty);
    var rate := capacity * FIXED_ONE / penalty;
    if rate == 0 {
      assert (1 + 1) * penalty == 2 * penalty && (0 + 1) * penalty == penalty;
    }
  }

  lemma LosslessRate(capacity: nat)
    requires capacity > 0
    ensures EffectiveCapacity(capacity, 0) == capacity
  {
    assert Penalty(0) == FIXED_ONE;
  }

  /** What is taken for a service time is one, by the edge's own fields. */
  lemma SerializationIsService(e: Edge, bytes: nat)
    requires e.capacityKbps > 0
    ensures ServiceTime(e, bytes, SerializationTime(e, bytes))
  {
    var rate := EffectiveCapacity(e.capacityKbps, e.loss);
    PenaltyIs(e.loss);
    RateIs(e.capacityKbps, e.loss);
    LosslessRate(e.capacityKbps);
    CeilBounds(bytes * 8 * FIXED_ONE, rate);
  }

  ghost predicate AllEdges(g: Graph, p: seq<EdgeId>) {
    forall i :: 0 <= i < |p| ==> IsEdge(g, p[i]) && At(g, p[i]).capacityKbps > 0
  }

  /** The predicted arrival follows such a timetable: waiting, service and latency, edge by edge. */
  lemma {:induction false} ArrivalFollows(g: Graph, elapsedMs: nat, bytes: nat, p: seq<EdgeId>)
    returns (at: seq<nat>, service: seq<nat>)
    requires AllEdges(g, p)
    ensures Timetable(g, elapsedMs, bytes, p, at, service) && at[|p|] == Arrival(g, elapsedMs, bytes, p)
  {
    if p == [] {
      at, service := [elapsedMs * 0x1_0000], [];
    } else {
      var n := |p| - 1;
      at, service := ArrivalFollows(g, elapsedMs, bytes, p[..n]);
      var e := At(g, p[n]);
      SerializationIsService(e, bytes);
      HopFollows(e, at[n], bytes);
      var more := service + [SerializationTime(e, bytes)];
      var later := at + [Arrival(g, elapsedMs, bytes, p)];
      forall i | 0 <= i < |p| ensures HopTakes(At(g, p[i]), bytes, later[i], more[i], later[i + 1]) {
        if i < n {
          assert HopTakes(At(g, p[..n][i]), bytes, at[i], service[i], at[i + 1]);
        }
      }
      at, service := later, more;
    }
  }

  lemma HopFollows(e: Edge, arrival: nat, bytes: nat)
    requires e.capacityKbps > 0
    ensures HopTakes(e, bytes, arrival, SerializationTime(e, bytes), Extend(e, arrival, bytes))
  {
    SerializationIsService(e, bytes);
  }

  // ------------------------------------------------------------------ idle edges

  function Total(xs: seq<nat>): nat {
    if xs == [] then 0 else Total(xs[..|xs| - 1]) + xs[|xs| - 1]
  }

  function Latencies(g: Graph, p: seq<EdgeId>): seq<nat>
    requires forall i :: 0 <= i < |p| ==> IsEdge(g, p[i])
  {
    seq(|p|, i requires 0 <= i < |p| => At(g, p[i]).latencyMs)
  }

  /** Nothing is promised on these edges beyond now. */
  ghost predicate Idle(g: Graph, elapsedMs: nat, p: seq<EdgeId>)
    requires forall i :: 0 <= i < |p| ==> IsEdge(g, p[i])
  {
    forall i :: 0 <= i < |p| ==> At(g, p[i]).virtualFreeAt <= elapsedMs * 0x1_0000
  }

  ghost predicate ServiceTimes(g: Graph, bytes: nat, p: seq<EdgeId>, service: seq<nat>)
    requires forall i :: 0 <= i < |p| ==> IsEdge(g, p[i])
  {
    |service| == |p| && forall i :: 0 <= i < |p| ==> ServiceTime(At(g, p[i]), bytes, service[i])
  }

  /** On idle edges the time on the way is the sum of the latencies and of the service times. */
  lemma {:induction false} IdleArrival(g: Graph, elapsedMs: nat, bytes: nat, p: seq<EdgeId>)
    returns (service: seq<nat>)
    requires AllEdges(g, p) && Idle(g, elapsedMs, p)
    ensures ServiceTimes(g, bytes, p, service)
    ensures Arrival(g, elapsedMs, bytes, p)
      == elapsedMs * 0x1_0000 + Total(Latencies(g, p)) * 0x1_0000 + Total(service)
  {
    if p == [] {
      service := [];
    } else {
      var n := |p| - 1;
      var e := At(g, p[n]);
      var front := IdleArrival(g, elapsedMs, bytes, p[..n]);
      SerializationIsService(e, bytes);
      service := front + [SerializationTime(e, bytes)];
      assert service[..n] == front;
      assert Latencies(g, p)[..n] == Latencies(g, p[..n]);
      forall i | 0 <= i < |p| ensures ServiceTime(At(g, p[i]), bytes, service[i]) {
        if i < n { assert ServiceTime(At(g, p[..n][i]), bytes, front[i]); }
      }
    }
  }

  /** The edge with `d` milliseconds more of latency. */
  function Slowed(g: Graph, id: EdgeId, d: nat): Graph
    requires IsEdge(g, id)
  {
    With(g, id, At(g, id).(latencyMs := At(g, id).latencyMs + d))
  }

  lemma {:induction false} SlowedElsewhere(g: Graph, elapsedMs: nat, bytes: nat, p: seq<EdgeId>, id: EdgeId, d: nat)
    requires AllEdges(g, p) && IsEdge(g, id) && id !in p
    ensures AllEdges(Slowed(g, id, d), p)
    ensures Arrival(Slowed(g, id, d), elapsedMs, bytes, p) == Arrival(g, elapsedMs, bytes, p)
  {
    if p == [] {
    } else {
      SlowedElsewhere(g, elapsedMs, bytes, p[..|p| - 1], id, d);
    }
  }

  /**
   On idle edges a packet arrives later by exactly as much as one edge of its path is slower.
   The path uses no edge twice; along a path the nodes rise.
   */
  lemma {:induction false} SlowerByAsMuch(
      g: Graph, elapsedMs: nat, bytes: nat, p: seq<EdgeId>, k: nat, d: nat)
    requires AllEdges(g, p) && Idle(g, elapsedMs, p) && k < |p|
    requires forall i, j :: 0 <= i < j < |p| ==> p[i] != p[j]
    ensures AllEdges(Slowed(g, p[k], d), p)
    ensures Arrival(Slowed(g, p[k], d), elapsedMs, bytes, p) == Arrival(g, elapsedMs, bytes, p) + d * 0x1_0000
  {
    var n := |p| - 1;
    var g' := Slowed(g, p[k], d);
    assert At(g', p[n]) == if k == n then At(g, p[n]).(latencyMs := At(g, p[n]).latencyMs + d) else At(g, p[n]);
    if k == n {
      SlowedElsewhere(g, elapsedMs, bytes, p[..n], p[n], d);
    } else {
      SlowerByAsMuch(g, elapsedMs, bytes, p[..n], k, d);
      IdleIsLater(g, elapsedMs, bytes, p[..n]);
      LaterByAsMuch(At(g, p[n]), Arrival(g, elapsedMs, bytes, p[..n]), d * 0x1_0000, bytes);
    }
  }

  lemma LaterByAsMuch(e: Edge, arrival: nat, more: nat, bytes: nat)
    requires arrival >= e.virtualFreeAt
    ensures Extend(e, arrival + more, bytes) == Extend(e, arrival, bytes) + more
  {
  }

  lemma {:induction false} IdleIsLater(g: Graph, elapsedMs: nat, bytes: nat, p: seq<EdgeId>)
    requires AllEdges(g, p)
    ensures Arrival(g, elapsedMs, bytes, p) >= elapsedMs * FIXED_ONE
  {
    if p == [] {
    } else {
      IdleIsLater(g, elapsedMs, bytes, p[..|p| - 1]);
    }
  }

  // ------------------------------------------------------------------ which edges are planned

  /** No edge of the path is in cooldown. */
  ghost predicate OutOfCooldown(g: Graph, elapsedMs: nat, path: seq<EdgeId>)
    requires forall i :: 0 <= i < |path| ==> IsEdge(g, path[i])
  {
    forall i :: 0 <= i < |path| ==> At(g, path[i]).cooldownUntil <= elapsedMs
  }

  /** Every edge that the endpoint itself can send on is in cooldown. */
  ghost predicate NoWayOut(g: Graph, elapsedMs: nat) {
    |g| > 0 && forall k :: 0 <= k < |g[0]| ==> elapsedMs < g[0][k].cooldownUntil
  }

  lemma CooldownIsNoWayOut(g: Graph, elapsedMs: nat)
    requires |g| > 0
    ensures AllLocalInCooldown(g, elapsedMs) <==> NoWayOut(g, elapsedMs)
  {
    if AllLocalInCooldown(g, elapsedMs) {
      forall k: nat | k < |g[0]| ensures elapsedMs < g[0][k].cooldownUntil {
        assert !Allowed(g, elapsedMs, EdgeId(0, k));
      }
    }
  }

  lemma ChosenIsOut(g: Graph, elapsedMs: nat, bytes: nat, sample: bool, path: seq<EdgeId>)
    requires Chosen(g, elapsedMs, bytes, sample, path) && forall i :: 0 <= i < |path| ==> IsEdge(g, path[i])
    ensures OutOfCooldown(g, elapsedMs, path)
  {
    PathEdges(g, elapsedMs, path, |g| - 1);
  }

  /** Two edges between the same nodes that differ in latency only. */
  predicate Twins(e: Edge, other: Edge) {
    && other.next == e.next && other.capacityKbps == e.capacityKbps
    && other.loss == e.loss && other.virtualFreeAt == e.virtualFreeAt
  }

  /** Of usable twins the fastest is planned, the first in graph order of those. */
  ghost predicate FastestTwins(g: Graph, elapsedMs: nat, path: seq<EdgeId>)
    requires forall i :: 0 <= i < |path| ==> IsEdge(g, path[i])
  {
    forall i: nat, k: nat :: i < |path| && Usable(g, elapsedMs, EdgeId(path[i].node, k)) ==>
      Twins(At(g, path[i]), g[path[i].node][k]) ==>
        && At(g, path[i]).latencyMs <= g[path[i].node][k].latencyMs
        && (At(g, path[i]).latencyMs == g[path[i].node][k].latencyMs ==> path[i].edge <= k)
  }

  /** A route that is best is best to every node on its way. */
  lemma {:induction false} BestPrefix(q: Query, p: seq<EdgeId>, v: nat, n: nat)
    requires Path(q.g, q.elapsedMs, p, v) && BestAllAlong(q, p, v) && 0 < n <= |p| && IsEdge(q.g, p[n - 1])
    ensures Path(q.g, q.elapsedMs, p[..n], At(q.g, p[n - 1]).next) && BestAllAlong(q, p[..n], At(q.g, p[n - 1]).next)
  {
    if n == |p| {
      assert p[..n] == p;
    } else {
      BestPrefix(q, p[..|p| - 1], p[|p| - 1].node, n);
      assert p[..|p| - 1][..n] == p[..n];
    }
  }

  lemma TwinIsNoBetter(q: Query, p: seq<EdgeId>, v: nat, other: EdgeId)
    requires q.forced.None? && p != [] && Path(q.g, q.elapsedMs, p, v)
    requires EarliestTo(q, p, v) && FirstAmongEqual(q, p, v)
    requires Usable(q.g, q.elapsedMs, other) && other.node == p[|p| - 1].node
    requires Twins(At(q.g, p[|p| - 1]), At(q.g, other))
    ensures At(q.g, p[|p| - 1]).latencyMs <= At(q.g, other).latencyMs
    ensures At(q.g, p[|p| - 1]).latencyMs == At(q.g, other).latencyMs ==> p[|p| - 1].edge <= other.edge
  {
    var n := |p| - 1;
    var p' := p[..n] + [other];
    assert p'[..n] == p[..n];
    assert Path(q.g, q.elapsedMs, p', v);
    PredictedExtends(q, p, v);
    PredictedExtends(q, p', v);
    assert Predicted(q, p) <= Predicted(q, p');
  }

  /** An ordinary plan takes the fastest of twin edges at every node. */
  lemma FasterIsPlanned(g: Graph, elapsedMs: nat, bytes: nat, path: seq<EdgeId>)
    requires Chosen(g, elapsedMs, bytes, false, path)
    requires forall i :: 0 <= i < |path| ==> IsEdge(g, path[i])
    ensures FastestTwins(g, elapsedMs, path)
  {
    var q := Query(g, elapsedMs, bytes, None);
    forall i: nat, k: nat | i < |path| && Usable(g, elapsedMs, EdgeId(path[i].node, k))
               && Twins(At(g, path[i]), g[path[i].node][k])
      ensures At(g, path[i]).latencyMs <= g[path[i].node][k].latencyMs
      ensures At(g, path[i]).latencyMs == g[path[i].node][k].latencyMs ==> path[i].edge <= k
    {
      BestPrefix(q, path, |g| - 1, i + 1);
      TwinIsNoBetter(q, path[..i + 1], At(g, path[i]).next, EdgeId(path[i].node, k));
    }
  }
}
