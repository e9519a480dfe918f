/**
 What planning, feedback and failures do to the edges of the graph: a relation between the
 graph before and after, and the facts every one of them keeps.
 */
module RouteUpdate {
  import opened Options
  import opened RouteSpec
  import opened RouteTable

  predicate SameShape(g: Graph, g': Graph) {
    |g'| == |g| && forall u :: 0 <= u < |g| ==> |g'[u]| == |g[u]|
  }

  /** The first `n` of these edges have their new values, and nothing else changed. */
  ghost predicate Placed(g: Graph, g': Graph, ids: seq<EdgeId>, es: seq<Edge>, n: nat)
    requires n <= |ids| == |es|
  {
    && SameShape(g, g')
    && (forall i :: 0 <= i < n ==> IsEdge(g', ids[i]) && At(g', ids[i]) == es[i])
    && (forall id :: IsEdge(g, id) && id !in ids[..n] ==> IsEdge(g', id) && At(g', id) == At(g, id))
  }

  lemma PlacedNext(g: Graph, g': Graph, ids: seq<EdgeId>, es: seq<Edge>, n: nat)
    requires n < |ids| == |es| && IsEdge(g, ids[n])
    requires forall i :: 0 <= i < n ==> ids[i] != ids[n]
    requires Placed(g, g', ids, es, n)
    ensures IsEdge(g', ids[n]) && At(g', ids[n]) == At(g, ids[n])
    ensures Placed(g, With(g', ids[n], es[n]), ids, es, n + 1)
  {
    assert ids[..n + 1] == ids[..n] + [ids[n]];
    var g'' := With(g', ids[n], es[n]);
    forall i | 0 <= i < n + 1 ensures IsEdge(g'', ids[i]) && At(g'', ids[i]) == es[i] {
      if i < n { assert IsEdge(g', ids[i]) && ids[i] != ids[n]; }
    }
    forall id | IsEdge(g, id) && id !in ids[..n + 1] ensures IsEdge(g'', id) && At(g'', id) == At(g, id) {
      assert IsEdge(g', id) && id != ids[n];
    }
  }

  // ------------------------------------------------------------------ reservations

  /** The service interval that the `i`-th hop of a path is booked for. */
  datatype Booking = Booking(id: EdgeId, start: nat, finish: nat)

  function BookingAt(g: Graph, elapsedMs: nat, bytes: nat, p: seq<EdgeId>, i: nat): Booking
    requires i < |p| && forall k :: 0 <= k < |p| ==> IsEdge(g, p[k])
  {
    var arrival := Arrival(g, elapsedMs, bytes, p[..i]);
    Booking(p[i], Max(arrival, At(g, p[i]).virtualFreeAt), Finish(At(g, p[i]), arrival, bytes))
  }

  function BookedEdge(e: Edge, finish: nat, elapsedMs: nat, sample: bool): Edge {
    e.(virtualFreeAt := finish, lastSampled := if sample then Some(elapsedMs) else e.lastSampled)
  }

  /** The edges of the path are booked, and no other edge changes. */
  ghost predicate Reserved(g: Graph, g': Graph, elapsedMs: nat, bytes: nat, sample: bool, p: seq<EdgeId>)
    requires forall k :: 0 <= k < |p| ==> IsEdge(g, p[k])
  {
    && SameShape(g, g')
    && (forall i :: 0 <= i < |p| ==>
      && IsEdge(g', p[i])
      && At(g', p[i]) == BookedEdge(At(g, p[i]), BookingAt(g, elapsedMs, bytes, p, i).finish, elapsedMs, sample))
    && (forall id :: IsEdge(g, id) && id !in p ==> At(g', id) == At(g, id))
  }

  function BookedEdges(g: Graph, elapsedMs: nat, bytes: nat, sample: bool, p: seq<EdgeId>): seq<Edge>
    requires forall k :: 0 <= k < |p| ==> IsEdge(g, p[k])
  {
    seq(|p|, i requires 0 <= i < |p| =>
      BookedEdge(At(g, p[i]), BookingAt(g, elapsedMs, bytes, p, i).finish, elapsedMs, sample))
  }

  lemma PlacedIsReserved(g: Graph, g': Graph, elapsedMs: nat, bytes: nat, sample: bool, p: seq<EdgeId>)
    requires forall k :: 0 <= k < |p| ==> IsEdge(g, p[k])
    requires Placed(g, g', p, BookedEdges(g, elapsedMs, bytes, sample, p), |p|)
    ensures Reserved(g, g', elapsedMs, bytes, sample, p)
  {
    assert p[..|p|] == p;
  }

  /** On the last edge of its path a packet arrives when the walk along the path does. */
  lemma ReservationEnds(g: Graph, g': Graph, elapsedMs: nat, bytes: nat, sample: bool, p: seq<EdgeId>)
    requires p != [] && forall k :: 0 <= k < |p| ==> IsEdge(g, p[k])
    requires Reserved(g, g', elapsedMs, bytes, sample, p)
    ensures var e := At(g', p[|p| - 1]);
            e.virtualFreeAt + Latency(e) == Arrival(g, elapsedMs, bytes, p)
  {
    assert IsEdge(g, p[|p| - 1]);
  }

  /**
   Prediction equals reservation: once the path that the search traced is booked, the packet
   arrives at the very time that the search has in its table for the last node.
   */
  lemma ReservationMeetsPrediction(q: Query, a: Arrivals, p: Predecessors, backlog: nat, g': Graph, sample: bool)
    requires Final(q, a, p, backlog) && a[|q.g| - 1][FinalState(q)] != NEVER
    ensures var path := Trace(q, a, p, backlog, |q.g| - 1, FinalState(q));
            && path != [] && (forall k :: 0 <= k < |path| ==> IsEdge(q.g, path[k]))
            && (Reserved(q.g, g', q.elapsedMs, q.bytes, sample, path) ==>
                 var e := At(g', path[|path| - 1]);
                 e.next == |q.g| - 1 && e.virtualFreeAt + Latency(e) == a[|q.g| - 1][FinalState(q)])
  {
    var path := Trace(q, a, p, backlog, |q.g| - 1, FinalState(q));
    TraceArrives(q, a, p, backlog, |q.g| - 1, FinalState(q));
    PathEdges(q.g, q.elapsedMs, path, |q.g| - 1);
    if Reserved(q.g, g', q.elapsedMs, q.bytes, sample, path) {
      ReservationEnds(q.g, g', q.elapsedMs, q.bytes, sample, path);
    }
  }

  function Bookings(g: Graph, elapsedMs: nat, bytes: nat, p: seq<EdgeId>): seq<Booking>
    requires forall k :: 0 <= k < |p| ==> IsEdge(g, p[k])
  {
    seq(|p|, i requires 0 <= i < |p| => BookingAt(g, elapsedMs, bytes, p, i))
  }

  /** On one edge the bookings of a run are disjoint, in order, and end when the edge is free. */
  ghost predicate LogOk(g: Graph, log: seq<Booking>) {
    && (forall i :: 0 <= i < |log| ==>
      IsEdge(g, log[i].id) && log[i].start <= log[i].finish <= At(g, log[i].id).virtualFreeAt)
    && (forall i, j :: 0 <= i < j < |log| && log[i].id == log[j].id ==> log[i].finish <= log[j].start)
  }

  lemma BookingsKeepLog(
      g: Graph, g': Graph, log: seq<Booking>, elapsedMs: nat, bytes: nat, sample: bool, p: seq<EdgeId>)
    requires forall k :: 0 <= k < |p| ==> IsEdge(g, p[k])
    requires forall i, j :: 0 <= i < j < |p| ==> p[i] != p[j]
    requires LogOk(g, log) && Reserved(g, g', elapsedMs, bytes, sample, p)
    ensures LogOk(g', log + Bookings(g, elapsedMs, bytes, p))
  {
    var log' := log + Bookings(g, elapsedMs, bytes, p);
    forall i | 0 <= i < |log'|
      ensures IsEdge(g', log'[i].id) && log'[i].start <= log'[i].finish <= At(g', log'[i].id).virtualFreeAt
    {
      if i < |log| {
        FreeTimesRise(g, g', elapsedMs, bytes, sample, p, log[i].id);
      } else {
        assert log'[i] == BookingAt(g, elapsedMs, bytes, p, i - |log|);
      }
    }
    forall i, j | 0 <= i < j < |log'| && log'[i].id == log'[j].id ensures log'[i].finish <= log'[j].start {
      BookingsInOrder(g, log, elapsedMs, bytes, p, i, j);
    }
  }

  /** A new booking starts no earlier than its edge was free. */
  lemma BookingsInOrder(g: Graph, log: seq<Booking>, elapsedMs: nat, bytes: nat, p: seq<EdgeId>, i: nat, j: nat)
    requires forall k :: 0 <= k < |p| ==> IsEdge(g, p[k])
    requires forall i, j :: 0 <= i < j < |p| ==> p[i] != p[j]
    requires LogOk(g, log) && i < j < |log| + |p|
    requires var log' := log + Bookings(g, elapsedMs, bytes, p); log'[i].id == log'[j].id
    ensures var log' := log + Bookings(g, elapsedMs, bytes, p); log'[i].finish <= log'[j].start
  {
    if i < |log| <= j {
      assert p[j - |log|] == log[i].id;
    }
  }

  lemma FreeTimesRise(g: Graph, g': Graph, elapsedMs: nat, bytes: nat, sample: bool, p: seq<EdgeId>, id: EdgeId)
    requires forall k :: 0 <= k < |p| ==> IsEdge(g, p[k])
    requires Reserved(g, g', elapsedMs, bytes, sample, p) && IsEdge(g, id)
    ensures IsEdge(g', id) && At(g, id).virtualFreeAt <= At(g', id).virtualFreeAt
  {
    if id in p {
      var i :| 0 <= i < |p| && p[i] == id;
      assert At(g', p[i]).virtualFreeAt == BookingAt(g, elapsedMs, bytes, p, i).finish;
    }
  }

  lemma {:induction false} ArrivalWithinHorizon(
      g: Graph, elapsedMs: nat, bytes: nat, p: seq<EdgeId>, v: nat, backlog: nat)
    requires GraphOk(g) && Path(g, elapsedMs, p, v) && bytes <= MAX_PACKET && Backlogged(g, elapsedMs, backlog)
    requires forall k :: 0 <= k < |p| ==> IsEdge(g, p[k])
    ensures Arrival(g, elapsedMs, bytes, p) <= Horizon(elapsedMs, backlog + v, v)
  {
    if p == [] {
    } else {
      var last := p[|p| - 1];
      ArrivalWithinHorizon(g, elapsedMs, bytes, p[..|p| - 1], last.node, backlog);
      assert EdgeOk(At(g, last));
      ServiceIsBounded(At(g, last), bytes);
    }
  }

  lemma {:induction false} PathPrefix(g: Graph, elapsedMs: nat, p: seq<EdgeId>, v: nat, i: nat)
    requires Path(g, elapsedMs, p, v) && i < |p|
    ensures Path(g, elapsedMs, p[..i], p[i].node)
  {
    if i >= |p| - 1 {
    } else {
      PathPrefix(g, elapsedMs, p[..|p| - 1], p[|p| - 1].node, i);
      assert p[..|p| - 1][..i] == p[..i];
    }
  }

  lemma HorizonMonotone(elapsedMs: nat, later: nat, backlog: nat, backlog': nat, u: nat)
    requires elapsedMs <= later && backlog <= backlog'
    ensures Horizon(elapsedMs, backlog, u) <= Horizon(later, backlog', u)
  {
  }

  lemma FinishWithinHorizon(e: Edge, arrival: nat, bytes: nat, elapsedMs: nat, backlog: nat, u: nat, n: nat)
    requires EdgeOk(e) && bytes <= MAX_PACKET && u < n
    requires arrival <= Horizon(elapsedMs, backlog + u, u) && e.virtualFreeAt <= Horizon(elapsedMs, backlog, u)
    ensures Finish(e, arrival, bytes) <= Horizon(elapsedMs, backlog + n, u)
  {
    ServiceIsBounded(e, bytes);
    HorizonMonotone(elapsedMs, elapsedMs, backlog, backlog + u, u);
    HorizonMonotone(elapsedMs, elapsedMs, backlog + u + 1, backlog + n, u);
  }

  lemma BookingWithinHorizon(g: Graph, elapsedMs: nat, bytes: nat, p: seq<EdgeId>, v: nat, backlog: nat, i: nat)
    requires GraphOk(g) && Path(g, elapsedMs, p, v) && v < |g| && bytes <= MAX_PACKET
    requires i < |p| && forall k :: 0 <= k < |p| ==> IsEdge(g, p[k])
    requires Backlogged(g, elapsedMs, backlog)
    ensures BookingAt(g, elapsedMs, bytes, p, i).finish <= Horizon(elapsedMs, backlog + |g|, p[i].node)
  {
    PathPrefix(g, elapsedMs, p, v, i);
    ArrivalWithinHorizon(g, elapsedMs, bytes, p[..i], p[i].node, backlog);
    assert IsEdge(g, p[i]) && EdgeOk(At(g, p[i]));
    FinishWithinHorizon(At(g, p[i]), Arrival(g, elapsedMs, bytes, p[..i]), bytes, elapsedMs, backlog, p[i].node, |g|);
  }

  /** Every edge is free again when its booking ends, or as before when it has none. */
  lemma FreeAfter(g: Graph, g': Graph, elapsedMs: nat, bytes: nat, sample: bool, p: seq<EdgeId>, id: EdgeId)
    requires forall k :: 0 <= k < |p| ==> IsEdge(g, p[k])
    requires Reserved(g, g', elapsedMs, bytes, sample, p) && IsEdge(g', id)
    ensures IsEdge(g, id)
    ensures
      || At(g', id).virtualFreeAt == At(g, id).virtualFreeAt
      || exists i :: 0 <= i < |p| && p[i] == id
           && At(g', id).virtualFreeAt == BookingAt(g, elapsedMs, bytes, p, i).finish
  {
    assert IsEdge(g, id);
  }

  /** One plan moves what is promised by at most one service time for each node. */
  lemma ReservedBacklog(
      g: Graph, g': Graph, elapsedMs: nat, bytes: nat, sample: bool, p: seq<EdgeId>, v: nat, backlog: nat)
    requires GraphOk(g) && Path(g, elapsedMs, p, v) && v < |g| && bytes <= MAX_PACKET
    requires forall k :: 0 <= k < |p| ==> IsEdge(g, p[k])
    requires Backlogged(g, elapsedMs, backlog) && Reserved(g, g', elapsedMs, bytes, sample, p)
    ensures Backlogged(g', elapsedMs, backlog + |g|)
  {
    forall id | IsEdge(g', id)
      ensures At(g', id).virtualFreeAt <= Horizon(elapsedMs, backlog + |g|, id.node)
    {
      FreeAfter(g, g', elapsedMs, bytes, sample, p, id);
      FreeWithinHorizon(g, elapsedMs, bytes, p, v, backlog, id, At(g', id).virtualFreeAt);
    }
  }

  lemma FreeWithinHorizon(
      g: Graph, elapsedMs: nat, bytes: nat, p: seq<EdgeId>, v: nat, backlog: nat, id: EdgeId, free: nat)
    requires GraphOk(g) && Path(g, elapsedMs, p, v) && v < |g| && bytes <= MAX_PACKET
    requires forall k :: 0 <= k < |p| ==> IsEdge(g, p[k])
    requires Backlogged(g, elapsedMs, backlog) && IsEdge(g, id)
    requires
      || free == At(g, id).virtualFreeAt
      || exists i :: 0 <= i < |p| && p[i] == id && free == BookingAt(g, elapsedMs, bytes, p, i).finish
    ensures free <= Horizon(elapsedMs, backlog + |g|, id.node)
  {
    if free == At(g, id).virtualFreeAt {
      HorizonMonotone(elapsedMs, elapsedMs, backlog, backlog + |g|, id.node);
    } else {
      var i :| 0 <= i < |p| && p[i] == id && free == BookingAt(g, elapsedMs, bytes, p, i).finish;
      BookingWithinHorizon(g, elapsedMs, bytes, p, v, backlog, i);
    }
  }

  // ------------------------------------------------------------------ room for plans

  /** The services of `n` plans, at most one for each node. */
  function Services(n: nat, size: nat): nat { if n == 0 then 0 else Services(n - 1, size) + size }

  lemma {:induction false} ServicesAre(n: nat, size: nat)
    ensures Services(n, size) == n * size
  {
    if n == 0 {
      assert Services(n, size) == 0;
    } else {
      ServicesAre(n - 1, size);
      assert n * size == (n - 1) * size + size;
    }
  }

  lemma {:induction false} FewerServices(n: nat, m: nat, size: nat)
    requires m <= n
    ensures Services(m, size) <= Services(n, size)
    decreases n
  {
    if m < n {
      FewerServices(n - 1, m, size);
    } else {
      assert m == n;
    }
  }

  /** That many services promised, no time reaches the value that stands for no arrival. */
  predicate Fit(elapsedMs: nat, backlog: nat, size: nat) { Horizon(elapsedMs, backlog, size) < NEVER }

  lemma MoreIsBacklogged(g: Graph, elapsedMs: nat, backlog: nat, more: nat)
    requires Backlogged(g, elapsedMs, backlog) && backlog <= more
    ensures Backlogged(g, elapsedMs, more)
  {
    forall id | IsEdge(g, id) ensures Horizon(elapsedMs, backlog, id.node) <= Horizon(elapsedMs, more, id.node) {
    }
  }

  lemma ScheduleKeepsBacklog(g: Graph, g': Graph, elapsedMs: nat, backlog: nat)
    requires SameSchedule(g, g') && Backlogged(g, elapsedMs, backlog)
    ensures Backlogged(g', elapsedMs, backlog)
  {
    forall id | IsEdge(g', id) ensures At(g', id).virtualFreeAt <= Horizon(elapsedMs, backlog, id.node) {
      assert IsEdge(g, id);
    }
  }

  /** The queues drain: in the time of `k` services the backlog shrinks by as much, down to nothing. */
  lemma QueuesDrain(g: Graph, elapsedMs: nat, backlog: nat, later: nat, k: nat)
    requires Backlogged(g, elapsedMs, backlog) && later * FIXED_ONE >= elapsedMs * FIXED_ONE + k * MAX_SERVICE
    ensures Backlogged(g, later, if k < backlog then backlog - k else 0)
  {
    var left: nat := if k < backlog then backlog - k else 0;
    forall id | IsEdge(g, id) ensures At(g, id).virtualFreeAt <= Horizon(later, left, id.node) {
      DrainedHorizon(elapsedMs, backlog, later, k, id.node);
    }
  }

  lemma DrainedHorizon(elapsedMs: nat, backlog: nat, later: nat, k: nat, u: nat)
    requires later * FIXED_ONE >= elapsedMs * FIXED_ONE + k * MAX_SERVICE
    ensures Horizon(elapsedMs, backlog, u) <= Horizon(later, if k < backlog then backlog - k else 0, u)
  {
  }

  const YEAR_MS: nat := 366 * 24 * 60 * 60 * 1000

  /**
   However many routes it has planned before, a planner whose queues have drained has no backlog,
   and room for the plans of at least 2^28 services at any time of the year an instance may live.
   */
  lemma DrainedHasRoom(g: Graph, elapsedMs: nat, n: nat)
    requires forall id :: IsEdge(g, id) ==> At(g, id).virtualFreeAt <= elapsedMs * FIXED_ONE
    requires elapsedMs <= YEAR_MS && |g| <= 0x4000 && n * |g| <= 0x1000_0000
    ensures Backlogged(g, elapsedMs, 0) && Fit(elapsedMs, Services(n, |g|), |g|)
  {
    ServicesAre(n, |g|);
  }

  // ------------------------------------------------------------------ failures and feedback

  predicate Stale(e: Edge, at: nat) { e.lastObservationAt.Some? && at < e.lastObservationAt.value }

  /** A send failure on a local edge: half way to full loss, and no use until the delay is over. */
  function Failed(e: Edge, elapsedMs: nat): Edge {
    var observed :=
      if Stale(e, elapsedMs) then e
      else e.(loss := e.loss + (if e.loss <= LOSS_ONE then LOSS_ONE - e.loss else 0) / 2,
              lastObservationAt := Some(elapsedMs));
    observed.(
      cooldownUntil := elapsedMs + e.retryDelayMs,
      retryDelayMs := if e.retryDelayMs * 2 < COOLDOWN_MAX_MS then e.retryDelayMs * 2 else COOLDOWN_MAX_MS)
  }

  /** A sample's result, ignored when something newer is known. */
  function Observed(e: Edge, at: nat, success: bool): Edge {
    if Stale(e, at) then e
    else e.(
      loss := if success then e.loss * 3 / 4
              else e.loss + (if e.loss <= LOSS_ONE then LOSS_ONE - e.loss else 0) / 16,
      lastObservationAt := Some(at))
  }

  /** An accepted success of the first hop also ends its cooldown. */
  function ObservedFirst(e: Edge, at: nat, success: bool): Edge {
    if success && !Stale(e, at)
    then Observed(e, at, success).(cooldownUntil := 0, retryDelayMs := COOLDOWN_INITIAL_MS)
    else Observed(e, at, success)
  }

  /** The first edge of a node that uses the channel. */
  predicate IsFirstOn(edges: seq<Edge>, channel: nat, k: nat) {
    && k < |edges| && edges[k].channelId == channel
    && forall j :: 0 <= j < k ==> edges[j].channelId != channel
  }

  /** The edges a plan names, found node by node. */
  ghost predicate Walk(g: Graph, plan: seq<nat>, node: nat, walk: seq<EdgeId>)
    decreases |plan|
  {
    && |walk| == |plan|
    && (plan != [] ==>
      && IsEdge(g, walk[0]) && walk[0].node == node
      && IsFirstOn(g[node], plan[0], walk[0].edge)
      && Walk(g, plan[1..], At(g, walk[0]).next, walk[1..]))
  }

  lemma {:induction false} WalkIsUnique(g: Graph, plan: seq<nat>, node: nat, walk: seq<EdgeId>, other: seq<EdgeId>)
    requires Walk(g, plan, node, walk) && Walk(g, plan, node, other)
    ensures walk == other
    decreases |plan|
  {
    if plan == [] {
    } else {
      var a, b := walk[0].edge, other[0].edge;
      assert a == b by { assert !(a < b) && !(b < a); }
      WalkIsUnique(g, plan[1..], At(g, walk[0]).next, walk[1..], other[1..]);
    }
  }

  lemma {:induction false} WalkRises(g: Graph, plan: seq<nat>, node: nat, walk: seq<EdgeId>)
    requires Topological(g) && Walk(g, plan, node, walk)
    ensures forall i :: 0 <= i < |walk| ==> IsEdge(g, walk[i]) && walk[i].node >= node
    ensures forall i, j :: 0 <= i < j < |walk| ==> walk[i].node < walk[j].node
    decreases |plan|
  {
    if plan == [] {
    } else {
      WalkRises(g, plan[1..], At(g, walk[0]).next, walk[1..]);
      forall i | 0 < i < |walk| ensures IsEdge(g, walk[i]) && walk[i].node > node {
        assert walk[i] == walk[1..][i - 1];
      }
      forall i, j | 0 <= i < j < |walk| ensures walk[i].node < walk[j].node {
        if i > 0 { assert walk[i] == walk[1..][i - 1] && walk[j] == walk[1..][j - 1]; }
      }
    }
  }

  /** No node has two edges on one channel. */
  ghost predicate ChannelsDiffer(g: Graph) {
    forall u, j, k :: 0 <= u < |g| && 0 <= j < k < |g[u]| ==> g[u][j].channelId != g[u][k].channelId
  }

  function ChannelsOf(g: Graph, p: seq<EdgeId>): seq<nat>
    requires forall k :: 0 <= k < |p| ==> IsEdge(g, p[k])
  {
    seq(|p|, i requires 0 <= i < |p| => At(g, p[i]).channelId)
  }

  predicate Connected(g: Graph, p: seq<EdgeId>, node: nat) {
    p == [] || (IsEdge(g, p[0]) && p[0].node == node && Connected(g, p[1..], At(g, p[0]).next))
  }

  /** The plan of a path leads back to the edges of that path. */
  lemma {:induction false} PlanWalksItsPath(g: Graph, p: seq<EdgeId>, node: nat)
    requires ChannelsDiffer(g) && Connected(g, p, node)
    requires forall k :: 0 <= k < |p| ==> IsEdge(g, p[k])
    ensures Walk(g, ChannelsOf(g, p), node, p)
  {
    if p == [] {
    } else {
      assert ChannelsOf(g, p)[1..] == ChannelsOf(g, p[1..]);
      PlanWalksItsPath(g, p[1..], At(g, p[0]).next);
    }
  }

  lemma {:induction false} PathConnects(g: Graph, elapsedMs: nat, p: seq<EdgeId>, v: nat, i: nat)
    requires Path(g, elapsedMs, p, v) && i <= |p|
    ensures Connected(g, p[i..], if i < |p| then p[i].node else v)
    ensures i == 0 && p != [] ==> p[0].node == 0
    decreases |p| - i
  {
    PathEdges(g, elapsedMs, p, v);
    if i == |p| {
    } else {
      PathConnects(g, elapsedMs, p, v, i + 1);
      assert p[i..][1..] == p[i + 1..];
      PathHop(g, elapsedMs, p, v, i);
    }
  }

  lemma PathHop(g: Graph, elapsedMs: nat, p: seq<EdgeId>, v: nat, i: nat)
    requires Path(g, elapsedMs, p, v) && i < |p| && IsEdge(g, p[i])
    ensures At(g, p[i]).next == if i + 1 < |p| then p[i + 1].node else v
    ensures i == 0 ==> p[0].node == 0
  {
    if i + 1 < |p| {
      PathPrefix(g, elapsedMs, p, v, i + 1);
      assert p[..i + 1][i] == p[i];
    }
    PathPrefix(g, elapsedMs, p, v, 0);
  }

  /** The edges of the walk take the result, the first of them as a local edge; no other changes. */
  ghost predicate Noted(g: Graph, g': Graph, walk: seq<EdgeId>, at: nat, success: bool)
    requires forall i :: 0 <= i < |walk| ==> IsEdge(g, walk[i])
  {
    && SameShape(g, g')
    && (forall i :: 0 <= i < |walk| ==>
      && IsEdge(g', walk[i])
      && At(g', walk[i]) == if i == 0 then ObservedFirst(At(g, walk[0]), at, success)
                            else Observed(At(g, walk[i]), at, success))
    && (forall id :: IsEdge(g, id) && id !in walk ==> At(g', id) == At(g, id))
  }

  function ObservedEdges(g: Graph, walk: seq<EdgeId>, at: nat, success: bool): seq<Edge>
    requires forall i :: 0 <= i < |walk| ==> IsEdge(g, walk[i])
  {
    seq(|walk|, i requires 0 <= i < |walk| => Observed(At(g, walk[i]), at, success))
  }

  /** Once every hop has been observed, only the first may still need its reset. */
  lemma PlacedIsNoted(g: Graph, g': Graph, walk: seq<EdgeId>, at: nat, success: bool)
    requires forall i :: 0 <= i < |walk| ==> IsEdge(g, walk[i])
    requires forall i, j :: 0 <= i < j < |walk| ==> walk[i] != walk[j]
    requires Placed(g, g', walk, ObservedEdges(g, walk, at, success), |walk|)
    ensures
      if walk != [] && success && !Stale(At(g, walk[0]), at) then
        IsEdge(g', walk[0])
        && Noted(g, With(g', walk[0], At(g', walk[0]).(cooldownUntil := 0, retryDelayMs := COOLDOWN_INITIAL_MS)),
                 walk, at, success)
      else
        Noted(g, g', walk, at, success)
  {
    assert walk[..|walk|] == walk;
    if walk != [] && success && !Stale(At(g, walk[0]), at) {
      assert IsEdge(g', walk[0]);
      var g'' := With(g', walk[0], At(g', walk[0]).(cooldownUntil := 0, retryDelayMs := COOLDOWN_INITIAL_MS));
      forall i | 0 < i < |walk|
        ensures IsEdge(g'', walk[i]) && At(g'', walk[i]) == Observed(At(g, walk[i]), at, success)
      {
        assert IsEdge(g', walk[i]) && walk[i] != walk[0];
      }
      forall id | IsEdge(g, id) && id !in walk ensures At(g'', id) == At(g, id) {
        assert IsEdge(g', id) && id != walk[0];
      }
    }
  }

  /** The hop a walk takes next has not been changed yet. */
  lemma NextHop(g: Graph, g': Graph, plan: seq<nat>, walk: seq<EdgeId>, es: seq<Edge>, i: nat, node: nat)
    requires Topological(g) && Walk(g, plan, 0, walk) && |es| == |walk| && i < |plan|
    requires Walk(g, plan[i..], node, walk[i..]) && Placed(g, g', walk, es, i)
    ensures IsEdge(g, walk[i]) && walk[i].node == node && node < |g'| && g'[node] == g[node]
    ensures IsFirstOn(g[node], plan[i], walk[i].edge)
    ensures Walk(g, plan[i + 1..], At(g, walk[i]).next, walk[i + 1..])
  {
    WalkRises(g, plan, 0, walk);
    assert walk[i..][0] == walk[i] && plan[i..][0] == plan[i];
    assert walk[i..][1..] == walk[i + 1..] && plan[i..][1..] == plan[i + 1..];
    forall k | 0 <= k < |g[node]| ensures g'[node][k] == g[node][k] {
      var id := EdgeId(node, k);
      assert id !in walk[..i] by {
        forall j | 0 <= j < i ensures walk[j] != id {
          assert walk[j].node < walk[i].node;
        }
      }
      assert IsEdge(g, id) && At(g', id) == At(g, id);
    }
  }

  /** What no update ever touches. */
  predicate SameRoad(e: Edge, e': Edge) {
    e'.channelId == e.channelId && e'.next == e.next
    && e'.capacityKbps == e.capacityKbps && e'.latencyMs == e.latencyMs
  }

  /** What the reservations of a graph look like is left alone. */
  ghost predicate SameSchedule(g: Graph, g': Graph) {
    && SameShape(g, g')
    && forall id :: IsEdge(g, id) ==>
         && SameRoad(At(g, id), At(g', id))
         && At(g', id).virtualFreeAt == At(g, id).virtualFreeAt
         && At(g', id).lastSampled == At(g, id).lastSampled
  }

  lemma SameRoadsKeepShape(g: Graph, g': Graph)
    requires GraphOk(g) && SameShape(g, g')
    requires forall id :: IsEdge(g, id) ==> SameRoad(At(g, id), At(g', id)) && EdgeOk(At(g', id))
    requires forall id :: IsEdge(g, id) && id.node != 0 ==> At(g', id).cooldownUntil == 0
    ensures GraphOk(g')
  {
    forall id | IsEdge(g', id) ensures IsEdge(g, id) {
    }
  }

  lemma ReservedKeepsGraph(g: Graph, g': Graph, elapsedMs: nat, bytes: nat, sample: bool, p: seq<EdgeId>)
    requires GraphOk(g) && forall k :: 0 <= k < |p| ==> IsEdge(g, p[k])
    requires Reserved(g, g', elapsedMs, bytes, sample, p)
    ensures GraphOk(g')
  {
    forall id | IsEdge(g, id)
      ensures SameRoad(At(g, id), At(g', id)) && EdgeOk(At(g', id))
      ensures At(g', id).cooldownUntil == At(g, id).cooldownUntil
    {
      assert EdgeOk(At(g, id));
      if id in p {
        var i :| 0 <= i < |p| && p[i] == id;
        assert SameRoad(At(g, p[i]), At(g', p[i]));
      }
    }
    SameRoadsKeepShape(g, g');
  }

  lemma NotedKeepsGraph(g: Graph, g': Graph, plan: seq<nat>, walk: seq<EdgeId>, at: nat, success: bool)
    requires GraphOk(g) && Walk(g, plan, 0, walk)
    requires forall i :: 0 <= i < |walk| ==> IsEdge(g, walk[i])
    requires Noted(g, g', walk, at, success)
    ensures GraphOk(g') && SameSchedule(g, g')
  {
    WalkRises(g, plan, 0, walk);
    forall id | IsEdge(g, id)
      ensures SameRoad(At(g, id), At(g', id)) && EdgeOk(At(g', id))
      ensures At(g', id).virtualFreeAt == At(g, id).virtualFreeAt && At(g', id).lastSampled == At(g, id).lastSampled
      ensures id.node != 0 ==> At(g', id).cooldownUntil == 0
    {
      assert EdgeOk(At(g, id));
      if id in walk {
        var i :| 0 <= i < |walk| && walk[i] == id;
        assert At(g', walk[i]) == if i == 0 then ObservedFirst(At(g, walk[0]), at, success)
                                  else Observed(At(g, walk[i]), at, success);
      }
    }
    SameRoadsKeepShape(g, g');
  }

  /** By how much an observation that is not out of date moves the loss score, rounded down. */
  predicate MovesLoss(loss: nat, afterSuccess: nat, afterFailure: nat, afterSendFailure: nat) {
    && 4 * afterSuccess <= 3 * loss < 4 * (afterSuccess + 1)
    && 16 * (afterFailure - loss) <= 65535 - loss < 16 * (afterFailure - loss + 1)
    && 2 * (afterSendFailure - loss) <= 65535 - loss < 2 * (afterSendFailure - loss + 1)
  }

  /**
   A quarter less for each success, a sixteenth of what is missing to full loss more for each failure,
   half of it for a failure to send, unless something newer is known: then nothing.
   */
  lemma ObservationsMoveLoss(e: Edge, at: nat)
    requires e.loss <= LOSS_ONE
    ensures var s, f, x := Observed(e, at, true), Observed(e, at, false), Failed(e, at);
            if e.lastObservationAt.Some? && at < e.lastObservationAt.value
            then s == f == e && x.loss == e.loss && x.lastObservationAt == e.lastObservationAt
            else
              && MovesLoss(e.loss, s.loss, f.loss, x.loss)
              && s.lastObservationAt == f.lastObservationAt == x.lastObservationAt == Some(at)
  {
  }

  /** Success strictly lowers a loss score that is not zero; failure strictly raises one that is not nearly full. */
  lemma LossMovesStrictly(loss: nat, afterSuccess: nat, afterFailure: nat, afterSendFailure: nat)
    requires loss <= LOSS_ONE && MovesLoss(loss, afterSuccess, afterFailure, afterSendFailure)
    ensures afterSuccess <= loss <= afterFailure <= LOSS_ONE && loss <= afterSendFailure <= LOSS_ONE
    ensures afterSuccess < loss <==> loss > 0
    ensures afterFailure > loss <==> loss + 16 <= LOSS_ONE
    ensures afterSendFailure > loss <==> loss + 2 <= LOSS_ONE
  {
  }

  /**
   The result of a sample reaches every edge that it was sent over, unless that edge knows something newer;
   and no other edge.
   */
  lemma FeedbackReachesAll(g: Graph, g': Graph, walk: seq<EdgeId>, at: nat, success: bool, id: EdgeId)
    requires forall i :: 0 <= i < |walk| ==> IsEdge(g, walk[i])
    requires Noted(g, g', walk, at, success) && IsEdge(g, id) && At(g, id).loss <= LOSS_ONE
    ensures IsEdge(g', id)
    ensures var e, e' := At(g, id), At(g', id);
            if id !in walk then e' == e
            else if e.lastObservationAt.Some? && at < e.lastObservationAt.value then e' == e
            else
              && e'.lastObservationAt == Some(at)
              && if success then 4 * e'.loss <= 3 * e.loss < 4 * (e'.loss + 1)
                 else 16 * (e'.loss - e.loss) <= 65535 - e.loss < 16 * (e'.loss - e.loss + 1)
  {
    if id in walk {
      var i :| 0 <= i < |walk| && walk[i] == id;
      assert IsEdge(g', walk[i]);
      ObservationsMoveLoss(At(g, walk[i]), at);
    }
  }

  /** A success of the first hop, unless something newer is known, makes the edge usable again at once. */
  lemma SuccessRestores(e: Edge, at: nat, elapsedMs: nat)
    requires e.lastObservationAt.Some? ==> at >= e.lastObservationAt.value
    ensures var first := ObservedFirst(e, at, true);
            && elapsedMs >= first.cooldownUntil
            && Failed(first, elapsedMs).cooldownUntil == elapsedMs + 50
            && first.loss == Observed(e, at, true).loss
  {
  }

  function Successes(e: Edge, times: seq<nat>): Edge {
    if times == [] then e else Observed(Successes(e, times[..|times| - 1]), times[|times| - 1], true)
  }

  /** Observation times that never step back, and do not start before what is known. */
  ghost predicate Onward(e: Edge, times: seq<nat>) {
    && (forall i :: 0 <= i < |times| && e.lastObservationAt.Some? ==> e.lastObservationAt.value <= times[i])
    && (forall i, j :: 0 <= i < j < |times| ==> times[i] <= times[j])
  }

  /** Enough successes in a row make any edge lossless: each lowers a loss score that is not zero. */
  lemma {:induction false} SuccessesForgive(e: Edge, times: seq<nat>)
    requires Onward(e, times)
    ensures Successes(e, times).loss <= if e.loss > |times| then e.loss - |times| else 0
    ensures times != [] ==> Successes(e, times).lastObservationAt == Some(times[|times| - 1])
  {
    if times == [] {
    } else {
      SuccessesForgive(e, times[..|times| - 1]);
    }
  }

  /** Failures in a row keep the edge out of use for 50, 100 and then always 200 milliseconds. */
  function FailedTimes(e: Edge, times: seq<nat>): Edge {
    if times == [] then e else Failed(FailedTimes(e, times[..|times| - 1]), times[|times| - 1])
  }

  lemma {:induction false} CooldownBacksOff(e: Edge, times: seq<nat>)
    requires e.retryDelayMs == COOLDOWN_INITIAL_MS && times != []
    ensures FailedTimes(e, times).cooldownUntil == times[|times| - 1]
      + (if |times| == 1 then 50 else if |times| == 2 then 100 else 200)
    ensures FailedTimes(e, times).retryDelayMs == if |times| == 1 then 100 else 200
  {
    if |times| > 1 {
      CooldownBacksOff(e, times[..|times| - 1]);
    } else {
      assert times[..0] == [];
    }
  }
}
