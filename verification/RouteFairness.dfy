/** Runs of the planner: every edge that can be sampled is sampled in turn. */
module RouteFairness {
  import opened Options
  import opened RouteSpec
  import opened RouteRuns
  import RouteTable

  function SampleCount(events: seq<Event>): nat {
    if events == [] then 0
    else SampleCount(events[..|events| - 1]) + if events[|events| - 1].Samples() then 1 else 0
  }

  function EdgeIds(g: Graph): set<EdgeId> {
    set u, k | 0 <= u < |g| && 0 <= k < |g[u]| :: EdgeId(u, k)
  }

  /** The edges sampled at or after `start`. */
  function SampledSince(g: Graph, start: nat): set<EdgeId> {
    set id | id in EdgeIds(g) && IsEdge(g, id) && At(g, id).lastSampled.Some? && At(g, id).lastSampled.value >= start
  }

  lemma EdgeIdsAre(g: Graph)
    ensures forall id :: id in EdgeIds(g) <==> IsEdge(g, id)
  {
    forall id | IsEdge(g, id) ensures id in EdgeIds(g) {
      assert EdgeId(id.node, id.edge) == id;
    }
  }

  /** An event samples the edges of a sample's path, and no others. */
  lemma LastSampledAfter(g: Graph, e: Event, g': Graph, id: EdgeId)
    requires Next(g, e, g') && IsEdge(g, id)
    ensures IsEdge(g', id)
    ensures At(g', id).lastSampled ==
      if e.Samples() && id in e.path then Some(e.elapsedMs) else At(g, id).lastSampled
  {
    if e.Plan? && id in e.path {
      var i :| 0 <= i < |e.path| && e.path[i] == id;
      assert IsEdge(g', e.path[i]);
    }
  }

  lemma SameEdgeIds(g: Graph, e: Event, g': Graph)
    requires Next(g, e, g')
    ensures EdgeIds(g') == EdgeIds(g)
  {
    EdgeIdsAre(g);
    EdgeIdsAre(g');
    forall id ensures IsEdge(g', id) <==> IsEdge(g, id) {
    }
  }

  lemma SampledIs(g: Graph, start: nat, id: EdgeId)
    ensures id in SampledSince(g, start) <==>
      IsEdge(g, id) && At(g, id).lastSampled.Some? && At(g, id).lastSampled.value >= start
  {
    EdgeIdsAre(g);
  }

  /** A sample is forced over an edge sampled no later than any other candidate. */
  lemma ForcedEdge(g: Graph, e: Event, g': Graph, start: nat, x: EdgeId) returns (id: EdgeId)
    requires Next(g, e, g') && e.Samples() && Candidate(g, e.elapsedMs, x) && x !in SampledSince(g, start)
    ensures IsEdge(g, id) && id in e.path && id !in SampledSince(g, start)
  {
    id :| LeastRecentlySampled(g, e.elapsedMs, id) && RouteTable.Best(Query(g, e.elapsedMs, e.bytes, Some(id)), e.path);
    SampledIs(g, start, id);
    SampledIs(g, start, x);
    assert !SampledBefore(At(g, x).lastSampled, At(g, id).lastSampled);
  }

  /** One event: what was sampled stays so, and a sample that leaves `x` out adds a new edge. */
  lemma EventSamples(g: Graph, e: Event, g': Graph, start: nat, x: EdgeId)
    requires Next(g, e, g')
    requires e.Samples() ==> e.elapsedMs >= start && Candidate(g, e.elapsedMs, x)
    requires e.Samples() ==> x !in e.path
    requires IsEdge(g, x) && x !in SampledSince(g, start)
    ensures EdgeIds(g') == EdgeIds(g)
    ensures IsEdge(g', x) && x !in SampledSince(g', start)
    ensures SampledSince(g, start) <= SampledSince(g', start)
    ensures e.Samples() ==> SampledSince(g, start) < SampledSince(g', start)
  {
    SameEdgeIds(g, e, g');
    forall id | id in SampledSince(g, start) ensures id in SampledSince(g', start) {
      LastSampledAfter(g, e, g', id);
      SampledIs(g', start, id);
    }
    LastSampledAfter(g, e, g', x);
    SampledIs(g, start, x);
    SampledIs(g', start, x);
    if e.Samples() {
      var id := ForcedEdge(g, e, g', start, x);
      LastSampledAfter(g, e, g', id);
      SampledIs(g', start, id);
    }
  }

  lemma {:induction false} SamplesAccumulate(run: seq<Graph>, events: seq<Event>, start: nat, x: EdgeId, n: nat)
    requires Run(run, events) && n <= |events|
    requires SampledSince(run[0], start) == {} && IsEdge(run[0], x)
    requires forall i :: 0 <= i < n && events[i].Samples() ==>
      events[i].elapsedMs >= start && Candidate(run[i], events[i].elapsedMs, x)
    requires forall i :: 0 <= i < n && events[i].Samples() ==> x !in events[i].path
    ensures EdgeIds(run[n]) == EdgeIds(run[0])
    ensures IsEdge(run[n], x) && x !in SampledSince(run[n], start)
    ensures |SampledSince(run[n], start)| >= SampleCount(events[..n])
  {
    if n > 0 {
      SamplesAccumulate(run, events, start, x, n - 1);
      assert events[..n][..n - 1] == events[..n - 1];
      assert NextAt(run, events, n - 1);
      EventSamples(run[n - 1], events[n - 1], run[n], start, x);
      Larger(SampledSince(run[n - 1], start), SampledSince(run[n], start));
    } else {
      EdgeIdsAre(run[0]);
    }
  }

  lemma Larger<T>(a: set<T>, b: set<T>)
    requires a <= b
    ensures |a| <= |b| && (a < b ==> |a| < |b|)
  {
    assert b == a + (b - a);
  }

  /** No edge has been sampled yet. */
  ghost predicate Unsampled(g: Graph) { forall id :: IsEdge(g, id) ==> At(g, id).lastSampled.None? }

  /** When all samples so far were before `start`, no edge has been sampled since then. */
  lemma {:induction false} SampledEarlier(run: seq<Graph>, events: seq<Event>, start: nat, n: nat)
    requires Run(run, events) && n <= |events| && Unsampled(run[0])
    requires forall i :: 0 <= i < n && events[i].Samples() ==> events[i].elapsedMs < start
    ensures SampledSince(run[n], start) == {}
  {
    EdgeIdsAre(run[n]);
    if n == 0 {
      assert Unsampled(run[n]);
    } else {
      SampledEarlier(run, events, start, n - 1);
      assert NextAt(run, events, n - 1);
      SameEdgeIds(run[n - 1], events[n - 1], run[n]);
      EdgeIdsAre(run[n - 1]);
      forall id | IsEdge(run[n], id) ensures id !in SampledSince(run[n], start) {
        SampledIs(run[n - 1], start, id);
        LastSampledAfter(run[n - 1], events[n - 1], run[n], id);
      }
    }
  }

  /**
   Fairness: take as many sample plans as the graph has edges, all later than any sample before
   them.  An edge that could be sampled at each of them lies on at least one of these plans.
   Ordinary plans, failures and feedback may happen in between.
   */
  lemma SamplingIsFair(run: seq<Graph>, events: seq<Event>, start: nat, x: EdgeId)
    requires Run(run, events)
    requires SampledSince(run[0], start) == {} && IsEdge(run[0], x)
    requires SampleCount(events) >= |EdgeIds(run[0])|
    requires forall i :: 0 <= i < |events| && events[i].Samples() ==>
      events[i].elapsedMs >= start && Candidate(run[i], events[i].elapsedMs, x)
    ensures exists i :: 0 <= i < |events| && events[i].Samples() && x in events[i].path
  {
    var n := |events|;
    if forall i :: 0 <= i < n && events[i].Samples() ==> x !in events[i].path {
      SamplesAccumulate(run, events, start, x, n);
      assert events[..n] == events;
      EdgeIdsAre(run[0]);
      Larger(SampledSince(run[n], start), EdgeIds(run[0]) - {x});
    }
  }
}
