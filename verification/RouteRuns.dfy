/** What happens to a planner over time: plans, failures and feedback, and the graphs they leave. */
module RouteRuns {
  import opened Options
  import opened RouteSpec
  import opened RouteTable
  import opened RouteUpdate

  datatype Event =
    | Plan(elapsedMs: nat, bytes: nat, sample: bool, path: seq<EdgeId>)
    | Feedback(plan: seq<nat>, sentAt: nat, success: bool)
    | Failure(channelId: nat, failedAt: nat)
  {
    predicate Samples() { Plan? && sample }
  }

  /** A path the planner may choose: the best route, over the sampling edge if this is a sample. */
  ghost predicate Chosen(g: Graph, elapsedMs: nat, bytes: nat, sample: bool, path: seq<EdgeId>) {
    if sample
    then exists id :: LeastRecentlySampled(g, elapsedMs, id) && Best(Query(g, elapsedMs, bytes, Some(id)), path)
    else Best(Query(g, elapsedMs, bytes, None), path)
  }

  /** A route was chosen and booked. */
  ghost predicate Booked(g: Graph, g': Graph, elapsedMs: nat, bytes: nat, sample: bool, path: seq<EdgeId>) {
    && (forall k :: 0 <= k < |path| ==> IsEdge(g, path[k]))
    && Chosen(g, elapsedMs, bytes, sample, path)
    && Reserved(g, g', elapsedMs, bytes, sample, path)
  }

  /** Every edge of the plan of a sample sent at `sentAt` has learned how it went. */
  ghost predicate Told(g: Graph, g': Graph, plan: seq<nat>, sentAt: nat, success: bool) {
    exists walk ::
      && Walk(g, plan, 0, walk)
      && (forall i :: 0 <= i < |walk| ==> IsEdge(g, walk[i]))
      && Noted(g, g', walk, sentAt, success)
  }

  /** The first local edge on the channel has taken a failure. */
  ghost predicate ChannelFailed(g: Graph, g': Graph, channelId: nat, elapsedMs: nat) {
    && |g| > 0
    && exists k: nat :: IsFirstOn(g[0], channelId, k) && g' == With(g, EdgeId(0, k), Failed(g[0][k], elapsedMs))
  }

  ghost predicate Next(g: Graph, e: Event, g': Graph) {
    match e
    case Plan(elapsedMs, bytes, sample, path) => Booked(g, g', elapsedMs, bytes, sample, path)
    case Feedback(plan, sentAt, success) => Told(g, g', plan, sentAt, success) && SameSchedule(g, g')
    case Failure(channelId, failedAt) => ChannelFailed(g, g', channelId, failedAt) && SameSchedule(g, g')
  }

  /** The graphs before, between and after the events. */
  ghost predicate Run(run: seq<Graph>, events: seq<Event>) {
    |run| == |events| + 1 && forall i :: 0 <= i < |events| ==> NextAt(run, events, i)
  }

  ghost predicate NextAt(run: seq<Graph>, events: seq<Event>, i: nat)
    requires i < |events| && |run| == |events| + 1
  {
    Next(run[i], events[i], run[i + 1])
  }

  lemma RunExtends(run: seq<Graph>, events: seq<Event>, e: Event, g': Graph)
    requires Run(run, events) && Next(run[|events|], e, g')
    ensures Run(run + [g'], events + [e])
  {
    forall i | 0 <= i < |events| + 1 ensures NextAt(run + [g'], events + [e], i) {
      if i < |events| { assert NextAt(run, events, i); }
    }
  }
}
