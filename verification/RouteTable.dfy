/**
 The tables of the earliest-arrival search and why they are right: for every node and for
 both states, forced edge not yet used and used, the earliest arrival found so far and the
 step that led to it.
 */
module RouteTable {
  import opened Options
  import opened RouteSpec

  /** Leaving a node over an edge, in state 1 when the forced edge has been used before. */
  datatype Step = Step(state: nat, id: EdgeId)

  /** The order of the search: by node, state and edge. */
  predicate Before(a: Step, b: Step) {
    || a.id.node < b.id.node
    || (a.id.node == b.id.node && (a.state < b.state || (a.state == b.state && a.id.edge < b.id.edge)))
  }

  function NextState(q: Query, st: Step): nat { if q.forced == Some(st.id) then 1 else st.state }

  type Arrivals = seq<seq<nat>>
  type Predecessors = seq<seq<Option<Step>>>

  predicate Shaped(g: Graph, a: Arrivals, p: Predecessors) {
    && |a| == |p| == |g|
    && forall v :: 0 <= v < |g| ==> |a[v]| == |p[v]| == 2
  }

  predicate Arrivable(g: Graph, a: Arrivals) {
    |a| == |g| && forall v :: 0 <= v < |g| ==> |a[v]| == 2
  }

  /** A usable step from a node that has been reached. */
  predicate Offered(q: Query, a: Arrivals, st: Step)
    requires Arrivable(q.g, a)
  {
    st.state < 2 && Usable(q.g, q.elapsedMs, st.id) && a[st.id.node][st.state] != NEVER
  }

  function Offer(q: Query, a: Arrivals, st: Step): nat
    requires Arrivable(q.g, a) && Offered(q, a, st)
  {
    Extend(At(q.g, st.id), a[st.id.node][st.state], q.bytes)
  }

  predicate LeadsTo(q: Query, st: Step, v: nat, s: nat)
    requires IsEdge(q.g, st.id)
  {
    At(q.g, st.id).next == v && NextState(q, st) == s
  }

  /** No step before `at` offers an earlier arrival than the table has. */
  ghost predicate Complete(q: Query, a: Arrivals, at: Step)
    requires Arrivable(q.g, a) && Topological(q.g)
  {
    forall st :: Before(st, at) && Offered(q, a, st) ==>
      a[At(q.g, st.id).next][NextState(q, st)] <= Offer(q, a, st)
  }

  /** The entry comes from this step, and no step before it offered as early an arrival. */
  ghost predicate Explains(q: Query, a: Arrivals, v: nat, s: nat, st: Step)
    requires Arrivable(q.g, a) && v < |q.g| && s < 2
  {
    && Offered(q, a, st) && LeadsTo(q, st, v, s) && a[v][s] == Offer(q, a, st)
    && forall other :: Before(other, st) && Offered(q, a, other) && LeadsTo(q, other, v, s) ==>
         a[v][s] < Offer(q, a, other)
  }

  ghost predicate Explained(q: Query, a: Arrivals, p: Predecessors, at: Step, v: nat, s: nat)
    requires Shaped(q.g, a, p) && v < |q.g| && s < 2
  {
    (v, s) == (0, 0) || a[v][s] == NEVER
    || (p[v][s].Some? && Before(p[v][s].value, at) && Explains(q, a, v, s, p[v][s].value))
  }

  /** `u` times `MAX_LATENCY` and `backlog` times `MAX_SERVICE` after now. */
  function Horizon(elapsedMs: nat, backlog: nat, u: nat): nat {
    elapsedMs * 0x1_0000 + u * 0x1_0000_0000_0000 + backlog * 0x8_0000_0000
  }

  /** What the edges have been promised lies within the horizon. */
  ghost predicate Backlogged(g: Graph, elapsedMs: nat, backlog: nat) {
    forall id :: IsEdge(g, id) ==> At(g, id).virtualFreeAt <= Horizon(elapsedMs, backlog, id.node)
  }

  /** No time that this query computes can reach the value that stands for no arrival. */
  ghost predicate InRange(q: Query, backlog: nat) {
    && q.bytes <= MAX_PACKET
    && Backlogged(q.g, q.elapsedMs, backlog)
    && Horizon(q.elapsedMs, backlog + |q.g|, |q.g|) < NEVER
  }

  ghost predicate Bounded(q: Query, a: Arrivals, backlog: nat)
    requires Arrivable(q.g, a)
  {
    forall v, s :: 0 <= v < |q.g| && 0 <= s < 2 ==>
      a[v][s] == NEVER || a[v][s] <= Horizon(q.elapsedMs, backlog + v, v)
  }

  ghost predicate Sane(q: Query, backlog: nat) {
    && GraphOk(q.g) && InRange(q, backlog)
    && (q.forced.Some? ==> Usable(q.g, q.elapsedMs, q.forced.value))
  }

  /** The tables after every step before `at` has been considered. */
  ghost predicate Table(q: Query, a: Arrivals, p: Predecessors, at: Step, backlog: nat) {
    && Sane(q, backlog)
    && Shaped(q.g, a, p)
    && a[0][0] == q.elapsedMs * FIXED_ONE && a[0][1] == NEVER
    && (q.forced.None? ==> forall v :: 0 <= v < |q.g| ==> a[v][1] == NEVER)
    && Bounded(q, a, backlog)
    && Complete(q, a, at)
    && forall v, s :: 0 <= v < |q.g| && 0 <= s < 2 ==> Explained(q, a, p, at, v, s)
  }

  lemma OfferBounded(q: Query, a: Arrivals, st: Step, backlog: nat)
    requires Sane(q, backlog) && Arrivable(q.g, a) && Bounded(q, a, backlog) && Offered(q, a, st)
    ensures var v := At(q.g, st.id).next;
            Offer(q, a, st) <= Horizon(q.elapsedMs, backlog + v, v) < NEVER
  {
    var e := At(q.g, st.id);
    assert EdgeOk(e);
    ServiceIsBounded(e, q.bytes);
  }

  lemma EmptyTable(q: Query, a: Arrivals, p: Predecessors, backlog: nat)
    requires Sane(q, backlog) && Shaped(q.g, a, p)
    requires a[0][0] == q.elapsedMs * FIXED_ONE
    requires forall v, s :: 0 <= v < |q.g| && 0 <= s < 2 && (v, s) != (0, 0) ==> a[v][s] == NEVER
    ensures Table(q, a, p, Step(0, EdgeId(0, 0)), backlog)
  {
    assert a[0][1] == NEVER;
    forall v | 0 <= v < |q.g| ensures a[v][1] == NEVER {
      assert (v, 1) != (0, 0);
    }
  }

  /** Nothing usable lies between the two positions. */
  lemma SkipTo(q: Query, a: Arrivals, p: Predecessors, at: Step, at': Step, backlog: nat)
    requires Table(q, a, p, at, backlog)
    requires forall st :: Before(st, at) ==> Before(st, at')
    requires forall st :: Offered(q, a, st) && Before(st, at') ==> Before(st, at)
    ensures Table(q, a, p, at', backlog)
  {
    forall v, s | 0 <= v < |q.g| && 0 <= s < 2 ensures Explained(q, a, p, at', v, s) {
      assert Explained(q, a, p, at, v, s);
    }
  }

  function Set<T>(t: seq<seq<T>>, v: nat, s: nat, x: T): (t': seq<seq<T>>)
    requires v < |t| && s < |t[v]|
    ensures |t'| == |t| && forall u :: 0 <= u < |t| ==> |t'[u]| == |t[u]|
    ensures forall u, r :: 0 <= u < |t| && 0 <= r < |t[u]| ==> t'[u][r] == if (u, r) == (v, s) then x else t[u][r]
  {
    t[v := t[v][s := x]]
  }

  function AfterEdge(st: Step): Step { Step(st.state, EdgeId(st.id.node, st.id.edge + 1)) }

  /** A step that offers no earlier arrival changes nothing. */
  lemma RelaxKeeps(q: Query, a: Arrivals, p: Predecessors, st: Step, backlog: nat)
    requires Table(q, a, p, st, backlog)
    requires Offered(q, a, st) ==> a[At(q.g, st.id).next][NextState(q, st)] <= Offer(q, a, st)
    ensures Table(q, a, p, AfterEdge(st), backlog)
  {
    forall other | Before(other, AfterEdge(st)) ensures Before(other, st) || other == st {
    }
    forall v, s | 0 <= v < |q.g| && 0 <= s < 2 ensures Explained(q, a, p, AfterEdge(st), v, s) {
      assert Explained(q, a, p, st, v, s);
    }
  }

  /** Offers up to `at` do not depend on the entries of later nodes. */
  ghost predicate SameOffers(q: Query, a: Arrivals, a': Arrivals, at: Step)
    requires Arrivable(q.g, a) && Arrivable(q.g, a')
  {
    forall st :: Before(st, at) || st == at ==>
      Offered(q, a', st) == Offered(q, a, st) && (Offered(q, a, st) ==> Offer(q, a', st) == Offer(q, a, st))
  }

  lemma OffersStay(q: Query, a: Arrivals, a': Arrivals, at: Step, v: nat, s: nat)
    requires Topological(q.g) && Arrivable(q.g, a) && Arrivable(q.g, a') && at.id.node < v
    requires forall u, r :: 0 <= u < |q.g| && 0 <= r < 2 && (u, r) != (v, s) ==> a'[u][r] == a[u][r]
    ensures SameOffers(q, a, a', at)
  {
  }

  lemma CompleteAfter(q: Query, a: Arrivals, a': Arrivals, at: Step)
    requires Topological(q.g) && Arrivable(q.g, a) && Arrivable(q.g, a') && Complete(q, a, at)
    requires forall u, r :: 0 <= u < |q.g| && 0 <= r < 2 ==> a'[u][r] <= a[u][r]
    requires SameOffers(q, a, a', at)
    requires Offered(q, a, at) && a'[At(q.g, at.id).next][NextState(q, at)] <= Offer(q, a, at)
    ensures Complete(q, a', AfterEdge(at))
  {
    forall st | Before(st, AfterEdge(at)) && Offered(q, a', st)
      ensures a'[At(q.g, st.id).next][NextState(q, st)] <= Offer(q, a', st)
    {
      assert Before(st, at) || st == at;
    }
  }

  /** A step that offers an earlier arrival is entered. */
  lemma RelaxImproves(q: Query, a: Arrivals, p: Predecessors, st: Step, backlog: nat)
    requires Table(q, a, p, st, backlog) && Offered(q, a, st)
    requires Offer(q, a, st) < a[At(q.g, st.id).next][NextState(q, st)]
    ensures var v, s := At(q.g, st.id).next, NextState(q, st);
            Table(q, Set(a, v, s, Offer(q, a, st)), Set(p, v, s, Some(st)), AfterEdge(st), backlog)
  {
    var v, s := At(q.g, st.id).next, NextState(q, st);
    var a', p' := Set(a, v, s, Offer(q, a, st)), Set(p, v, s, Some(st));
    OfferBounded(q, a, st, backlog);
    OffersStay(q, a, a', st, v, s);
    CompleteAfter(q, a, a', st);
    forall u, r | 0 <= u < |q.g| && 0 <= r < 2 ensures Explained(q, a', p', AfterEdge(st), u, r) {
      ExplainedAfter(q, a, p, st, u, r);
    }
  }

  lemma ExplainedAfter(q: Query, a: Arrivals, p: Predecessors, st: Step, u: nat, r: nat)
    requires Topological(q.g) && Shaped(q.g, a, p) && u < |q.g| && r < 2
    requires Complete(q, a, st) && Explained(q, a, p, st, u, r) && Offered(q, a, st)
    requires Offer(q, a, st) < a[At(q.g, st.id).next][NextState(q, st)]
    ensures var v, s := At(q.g, st.id).next, NextState(q, st);
            Explained(q, Set(a, v, s, Offer(q, a, st)), Set(p, v, s, Some(st)), AfterEdge(st), u, r)
  {
    var v, s := At(q.g, st.id).next, NextState(q, st);
    var a' := Set(a, v, s, Offer(q, a, st));
    OffersStay(q, a, a', st, v, s);
    if (u, r) == (v, s) {
      assert Explains(q, a', v, s, st);
    } else if a[u][r] != NEVER && (u, r) != (0, 0) {
      ExplanationStays(q, a, a', st, u, r, p[u][r].value);
    }
  }

  lemma ExplanationStays(q: Query, a: Arrivals, a': Arrivals, at: Step, v: nat, s: nat, st: Step)
    requires Arrivable(q.g, a) && Arrivable(q.g, a') && v < |q.g| && s < 2
    requires SameOffers(q, a, a', at)
    requires a'[v][s] == a[v][s] && Before(st, at) && Explains(q, a, v, s, st)
    ensures Explains(q, a', v, s, st)
  {
    forall other | Before(other, st) ensures Before(other, at) {
    }
  }

  predicate Better(q: Query, a: Arrivals, st: Step)
    requires Arrivable(q.g, a) && (IsEdge(q.g, st.id) ==> At(q.g, st.id).next < |q.g|)
  {
    Offered(q, a, st) && Offer(q, a, st) < a[At(q.g, st.id).next][NextState(q, st)]
  }

  /** The tables once a step has been considered. */
  predicate Relaxed(q: Query, a: Arrivals, p: Predecessors, st: Step, a': Arrivals, p': Predecessors)
    requires Shaped(q.g, a, p) && (IsEdge(q.g, st.id) ==> At(q.g, st.id).next < |q.g|)
  {
    if Better(q, a, st) then
      var v, s := At(q.g, st.id).next, NextState(q, st);
      a' == Set(a, v, s, Offer(q, a, st)) && p' == Set(p, v, s, Some(st))
    else
      a' == a && p' == p
  }

  lemma TableAfter(q: Query, a: Arrivals, p: Predecessors, st: Step, a': Arrivals, p': Predecessors, backlog: nat)
    requires Table(q, a, p, st, backlog) && Relaxed(q, a, p, st, a', p')
    ensures Table(q, a', p', AfterEdge(st), backlog)
  {
    if Better(q, a, st) {
      RelaxImproves(q, a, p, st, backlog);
    } else {
      RelaxKeeps(q, a, p, st, backlog);
    }
  }

  // ------------------------------------------------------------------ reading the tables

  /** Past every edge: the last node has none. */
  ghost predicate Final(q: Query, a: Arrivals, p: Predecessors, backlog: nat) {
    |q.g| > 0 && Table(q, a, p, Step(0, EdgeId(|q.g| - 1, 0)), backlog)
  }

  function StateOf(q: Query, p: seq<EdgeId>): (s: nat)
    ensures s < 2
  {
    if q.forced.Some? && q.forced.value in p then 1 else 0
  }

  function LastStep(q: Query, p: seq<EdgeId>): Step
    requires p != []
  {
    Step(StateOf(q, p[..|p| - 1]), p[|p| - 1])
  }

  lemma StateOfExtended(q: Query, p: seq<EdgeId>)
    requires p != []
    ensures StateOf(q, p) == NextState(q, LastStep(q, p))
  {
    assert p == p[..|p| - 1] + [p[|p| - 1]];
  }

  lemma ExtendMonotone(e: Edge, arrival: nat, arrival': nat, bytes: nat)
    requires arrival <= arrival'
    ensures Extend(e, arrival, bytes) <= Extend(e, arrival', bytes)
  {
  }

  /** No path arrives earlier than the table says. */
  lemma {:induction false} TableIsLowerBound(
      q: Query, a: Arrivals, t: Predecessors, backlog: nat, p: seq<EdgeId>, v: nat)
    requires Final(q, a, t, backlog) && Path(q.g, q.elapsedMs, p, v) && v < |q.g|
    ensures a[v][StateOf(q, p)] != NEVER
    ensures a[v][StateOf(q, p)] <= Predicted(q, p)
  {
    if p == [] {
    } else {
      var last := p[|p| - 1];
      var st := LastStep(q, p);
      TableIsLowerBound(q, a, t, backlog, p[..|p| - 1], last.node);
      PredictedExtends(q, p, v);
      StateOfExtended(q, p);
      assert Offered(q, a, st);
      OfferBounded(q, a, st, backlog);
      ExtendMonotone(At(q.g, last), a[last.node][st.state], Predicted(q, p[..|p| - 1]), q.bytes);
    }
  }

  lemma PredictedExtends(q: Query, p: seq<EdgeId>, v: nat)
    requires p != [] && Path(q.g, q.elapsedMs, p, v)
    ensures Path(q.g, q.elapsedMs, p[..|p| - 1], p[|p| - 1].node)
    ensures Predicted(q, p) == Extend(At(q.g, p[|p| - 1]), Predicted(q, p[..|p| - 1]), q.bytes)
  {
    PathEdges(q.g, q.elapsedMs, p, v);
  }

  /** Going back from an entry, step by step. */
  ghost function Trace(q: Query, a: Arrivals, t: Predecessors, backlog: nat, v: nat, s: nat): seq<EdgeId>
    requires Final(q, a, t, backlog) && v < |q.g| && s < 2 && a[v][s] != NEVER
    decreases v
  {
    if v == 0 then []
    else
      assert Explained(q, a, t, Step(0, EdgeId(|q.g| - 1, 0)), v, s);
      var st := t[v][s].value;
      Trace(q, a, t, backlog, st.id.node, st.state) + [st.id]
  }

  /** The traced path exists and arrives exactly when the entry says. */
  lemma {:induction false} TraceArrives(q: Query, a: Arrivals, t: Predecessors, backlog: nat, v: nat, s: nat)
    requires Final(q, a, t, backlog) && v < |q.g| && s < 2 && a[v][s] != NEVER
    ensures var p := Trace(q, a, t, backlog, v, s);
            Path(q.g, q.elapsedMs, p, v) && StateOf(q, p) == s && Predicted(q, p) == a[v][s]
    decreases v
  {
    if v == 0 {
    } else {
      assert Explained(q, a, t, Step(0, EdgeId(|q.g| - 1, 0)), v, s);
      var st := t[v][s].value;
      TraceArrives(q, a, t, backlog, st.id.node, st.state);
      var prefix := Trace(q, a, t, backlog, st.id.node, st.state);
      var p := prefix + [st.id];
      assert p[..|p| - 1] == prefix;
      PredictedExtends(q, p, v);
      StateOfExtended(q, p);
    }
  }

  /** Equally early arrivals are decided by graph order: no step before the last one is as good. */
  ghost predicate FirstAmongEqual(q: Query, p: seq<EdgeId>, v: nat)
    requires p != [] && Path(q.g, q.elapsedMs, p, v)
  {
    forall p' :: p' != [] && Path(q.g, q.elapsedMs, p', v) ==>
      StateOf(q, p') == StateOf(q, p) ==>
      Before(LastStep(q, p'), LastStep(q, p)) ==> Predicted(q, p) < Predicted(q, p')
  }

  lemma TraceIsFirst(q: Query, a: Arrivals, t: Predecessors, backlog: nat, v: nat, s: nat)
    requires Final(q, a, t, backlog) && 0 < v < |q.g| && s < 2 && a[v][s] != NEVER
    requires var p := Trace(q, a, t, backlog, v, s);
             Path(q.g, q.elapsedMs, p, v) && StateOf(q, p) == s && Predicted(q, p) == a[v][s]
    ensures FirstAmongEqual(q, Trace(q, a, t, backlog, v, s), v)
  {
    var p := Trace(q, a, t, backlog, v, s);
    assert Explained(q, a, t, Step(0, EdgeId(|q.g| - 1, 0)), v, s);
    var st := t[v][s].value;
    TraceArrives(q, a, t, backlog, st.id.node, st.state);
    assert p[..|p| - 1] == Trace(q, a, t, backlog, st.id.node, st.state);
    assert LastStep(q, p) == st;
    forall p' | p' != [] && Path(q.g, q.elapsedMs, p', v) && StateOf(q, p') == s && Before(LastStep(q, p'), st)
      ensures Predicted(q, p) < Predicted(q, p')
    {
      var other := LastStep(q, p');
      TableIsLowerBound(q, a, t, backlog, p'[..|p'| - 1], other.id.node);
      PredictedExtends(q, p', v);
      StateOfExtended(q, p');
      assert Offered(q, a, other) && LeadsTo(q, other, v, s);
      ExtendMonotone(At(q.g, other.id), a[other.id.node][other.state], Predicted(q, p'[..|p'| - 1]), q.bytes);
    }
  }

  /** No path to the node, with or without the forced edge on it as here, arrives earlier. */
  ghost predicate EarliestTo(q: Query, p: seq<EdgeId>, v: nat)
    requires Path(q.g, q.elapsedMs, p, v)
  {
    forall p' :: Path(q.g, q.elapsedMs, p', v) && StateOf(q, p') == StateOf(q, p) ==>
      Predicted(q, p) <= Predicted(q, p')
  }

  /** To every node along the path it arrives earliest, and equally early arrivals were decided by graph order. */
  ghost predicate BestAllAlong(q: Query, p: seq<EdgeId>, v: nat)
    requires Path(q.g, q.elapsedMs, p, v)
  {
    p == [] || (EarliestTo(q, p, v) && FirstAmongEqual(q, p, v) && BestAllAlong(q, p[..|p| - 1], p[|p| - 1].node))
  }

  lemma TraceIsEarliest(q: Query, a: Arrivals, t: Predecessors, backlog: nat, p: seq<EdgeId>, v: nat)
    requires Final(q, a, t, backlog) && Path(q.g, q.elapsedMs, p, v) && v < |q.g|
    requires Predicted(q, p) == a[v][StateOf(q, p)]
    ensures EarliestTo(q, p, v)
  {
    forall p' | Path(q.g, q.elapsedMs, p', v) && StateOf(q, p') == StateOf(q, p)
      ensures Predicted(q, p) <= Predicted(q, p')
    {
      TableIsLowerBound(q, a, t, backlog, p', v);
    }
  }

  lemma {:induction false} TraceIsBestAllAlong(q: Query, a: Arrivals, t: Predecessors, backlog: nat, v: nat, s: nat)
    requires Final(q, a, t, backlog) && v < |q.g| && s < 2 && a[v][s] != NEVER
    requires Path(q.g, q.elapsedMs, Trace(q, a, t, backlog, v, s), v)
    ensures BestAllAlong(q, Trace(q, a, t, backlog, v, s), v)
    decreases v
  {
    TraceArrives(q, a, t, backlog, v, s);
    if v == 0 {
    } else {
      TraceIsFirst(q, a, t, backlog, v, s);
      TraceIsEarliest(q, a, t, backlog, Trace(q, a, t, backlog, v, s), v);
      assert Explained(q, a, t, Step(0, EdgeId(|q.g| - 1, 0)), v, s);
      var st := t[v][s].value;
      TraceArrives(q, a, t, backlog, st.id.node, st.state);
      TraceIsBestAllAlong(q, a, t, backlog, st.id.node, st.state);
      var p := Trace(q, a, t, backlog, v, s);
      assert p[..|p| - 1] == Trace(q, a, t, backlog, st.id.node, st.state);
    }
  }

  ghost predicate NoRoute(q: Query) { forall p :: !Route(q, p) }

  /** The earliest route, earliest to each of its nodes, and the one that graph order picks among equally early ones. */
  ghost predicate Best(q: Query, p: seq<EdgeId>) {
    Earliest(q, p) && BestAllAlong(q, p, |q.g| - 1)
  }

  /** In the end the path must have used the forced edge, if there is one. */
  function FinalState(q: Query): nat { if q.forced.Some? then 1 else 0 }

  lemma NoEntryNoRoute(q: Query, a: Arrivals, t: Predecessors, backlog: nat)
    requires Final(q, a, t, backlog) && a[|q.g| - 1][FinalState(q)] == NEVER
    ensures NoRoute(q)
  {
    forall p ensures !Route(q, p) {
      if Route(q, p) { TableIsLowerBound(q, a, t, backlog, p, |q.g| - 1); }
    }
  }

  /** The entry of the last node answers the query. */
  lemma TraceIsBest(q: Query, a: Arrivals, t: Predecessors, backlog: nat)
    requires Final(q, a, t, backlog) && a[|q.g| - 1][FinalState(q)] != NEVER
    ensures Best(q, Trace(q, a, t, backlog, |q.g| - 1, FinalState(q)))
  {
    var d, s := |q.g| - 1, FinalState(q);
    forall p | Route(q, p) ensures a[d][s] <= Predicted(q, p) {
      TableIsLowerBound(q, a, t, backlog, p, d);
    }
    TraceArrives(q, a, t, backlog, d, s);
    TraceIsBestAllAlong(q, a, t, backlog, d, s);
  }
}
