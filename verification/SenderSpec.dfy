/**
 What the sending part of the endpoint does, as relations between what it knew before and what it
 knows after: packets with their stamps and routes, and samples with what became of them.
 */
module SenderSpec {
  import opened Budget
  import opened Bytes
  import opened KeyOrder
  import opened Options
  import Relay
  import opened RouteRuns
  import opened RouteSpec
  import opened RouteUpdate
  import SequenceSpec
  import SequenceFilter
  import opened Wire

  datatype Config = Config(
    graph: GraphConfig, minMtu: nat, reserve: nat, bootTimeMs: nat,
    keepaliveMs: nat, feedbackTimeoutMs: nat, feedbackIntervalMs: nat)
  {
    function Mtu(): nat { Relay.EffectiveMtu(minMtu) }

    function Hops(): (hops: nat)
      requires ConfigOk(graph)
      ensures hops >= 1
    {
      LongestOverEach(graph, 0, |graph[0]|, 0);
      Longest(graph, 0)
    }

    /** The largest KCP packet. */
    function KcpLimit(): int
      requires ConfigOk(graph)
    {
      KcpMtu(Mtu(), Hops(), reserve)
    }

    /** What is planned for a payload: everything that is set aside for it. */
    function ScheduledBytes(payloadLen: nat): nat
      requires ConfigOk(graph)
    {
      payloadLen + ScheduledOverhead(Hops(), reserve)
    }

    function CurrentTime(elapsedMs: nat): (time: nat)
      ensures time < TIME_SPAN
    {
      SequenceSpec.Counter(SequenceFilter.Tick(bootTimeMs, elapsedMs))
    }

    /** What the shell promises of a configuration. */
    ghost predicate Valid() {
      && ConfigOk(graph) && ConfigChannels(graph)
      && (forall u, k :: 0 <= u < |graph| && 0 <= k < |graph[u]| ==>
        graph[u][k].capacityHint < U32_SPAN && graph[u][k].latencyHint < U32_SPAN)
      && Hops() <= ROUTE_SPAN
      && 1 <= reserve <= 255 && feedbackIntervalMs > 0
      && KcpLimit() > 28
    }
  }

  /** Channels are 16 bits wide, and no node has two edges on one of them. */
  ghost predicate ConfigChannels(g: GraphConfig) {
    && (forall u, k :: 0 <= u < |g| && 0 <= k < |g[u]| ==> g[u][k].channelId < 0x1_0000)
    && forall u, j, k :: 0 <= u < |g| && 0 <= j < k < |g[u]| ==> g[u][j].channelId != g[u][k].channelId
  }

  datatype FeedbackSample = FeedbackSample(routePlan: seq<nat>, sentAt: nat, deadline: nat)

  /** Packets are ordered by sender and then by number, as their ids are. */
  function PacketKey(seqId: nat, seqNo: nat): nat { seqId * U48_SPAN + seqNo }

  /** A plan that names a way of the configured graph, edge by edge. */
  ghost predicate Planned(g: GraphConfig, plan: seq<nat>) {
    exists p :: Spelled(g, plan, p)
  }

  ghost predicate Spelled(g: GraphConfig, plan: seq<nat>, p: seq<EdgeId>) {
    && |plan| == |p|
    && (exists v :: Way(g, p, 0, v))
    && forall i :: 0 <= i < |p| ==>
         p[i].node < |g| && p[i].edge < |g[p[i].node]| && plan[i] == g[p[i].node][p[i].edge].channelId
  }

  lemma {:induction false} WayIsConnected(g: GraphConfig, nodes: Graph, p: seq<EdgeId>, u: nat, v: nat)
    requires Roads(g, nodes) && Way(g, p, u, v)
    ensures Connected(nodes, p, u)
    ensures forall i :: 0 <= i < |p| ==> IsEdge(nodes, p[i])
    decreases |p|
  {
    if p == [] {
    } else {
      assert IsEdge(nodes, p[0]);
      WayIsConnected(g, nodes, p[1..], g[u][p[0].edge].next, v);
      forall i | 0 <= i < |p| ensures IsEdge(nodes, p[i]) {
        if i > 0 { assert p[i] == p[1..][i - 1]; }
      }
    }
  }

  /** A planned plan leads the planner back to its edges: feedback about it finds every one. */
  lemma PlannedWalks(g: GraphConfig, nodes: Graph, plan: seq<nat>) returns (walk: seq<EdgeId>)
    requires ConfigChannels(g) && Roads(g, nodes) && Planned(g, plan)
    ensures Walk(nodes, plan, 0, walk)
  {
    walk :| Spelled(g, plan, walk);
    var v :| Way(g, walk, 0, v);
    WayIsConnected(g, nodes, walk, 0, v);
    forall u, j, k | 0 <= u < |nodes| && 0 <= j < k < |nodes[u]|
      ensures nodes[u][j].channelId != nodes[u][k].channelId
    {
      assert IsEdge(nodes, EdgeId(u, j)) && IsEdge(nodes, EdgeId(u, k));
      assert At(nodes, EdgeId(u, j)).channelId != At(nodes, EdgeId(u, k)).channelId;
    }
    PlanWalksItsPath(nodes, walk, 0);
    forall i | 0 <= i < |walk| ensures plan[i] == At(nodes, walk[i]).channelId {
      assert IsEdge(nodes, walk[i]);
    }
    assert plan == ChannelsOf(nodes, walk);
  }

  /** What the planner returns is planned, within the hops, and on 16-bit channels. */
  lemma RouteIsPlanned(g: GraphConfig, nodes: Graph, elapsedMs: nat, p: seq<EdgeId>)
    requires ConfigOk(g) && ConfigChannels(g) && Roads(g, nodes) && Path(nodes, elapsedMs, p, |nodes| - 1)
    requires forall k :: 0 <= k < |p| ==> IsEdge(nodes, p[k])
    ensures Spelled(g, ChannelsOf(nodes, p), p)
    ensures 1 <= |p| <= Longest(g, 0)
    ensures forall i :: 0 <= i < |p| ==> ChannelsOf(nodes, p)[i] < 0x1_0000
  {
    RouteHops(g, nodes, elapsedMs, p);
    PathConnects(nodes, elapsedMs, p, |nodes| - 1, 0);
    assert p[0..] == p;
    ConnectedIsWay(g, nodes, p, 0);
    forall i | 0 <= i < |p|
      ensures p[i].node < |g| && p[i].edge < |g[p[i].node]|
      ensures ChannelsOf(nodes, p)[i] == g[p[i].node][p[i].edge].channelId
    {
      assert IsEdge(nodes, p[i]);
    }
    assert Spelled(g, ChannelsOf(nodes, p), p);
  }

  lemma ReservedKeepsRoads(
      g: GraphConfig, nodes: Graph, nodes': Graph, elapsedMs: nat, bytes: nat, sample: bool, p: seq<EdgeId>)
    requires Roads(g, nodes) && forall k :: 0 <= k < |p| ==> IsEdge(nodes, p[k])
    requires Reserved(nodes, nodes', elapsedMs, bytes, sample, p)
    ensures Roads(g, nodes')
  {
    forall id | IsEdge(nodes', id)
      ensures At(nodes', id).next == g[id.node][id.edge].next
      ensures At(nodes', id).channelId == g[id.node][id.edge].channelId
    {
      assert IsEdge(nodes, id);
      if id in p {
        var i :| 0 <= i < |p| && p[i] == id;
        assert IsEdge(nodes', p[i]);
      }
    }
  }

  lemma ScheduleKeepsRoads(g: GraphConfig, nodes: Graph, nodes': Graph)
    requires Roads(g, nodes) && SameSchedule(nodes, nodes')
    ensures Roads(g, nodes')
  {
    forall id | IsEdge(nodes', id) ensures IsEdge(nodes, id) {
    }
  }

  // ------------------------------------------------------------------ one packet

  datatype Stamp = Stamp(time: nat, seqId: nat, seqNo: nat)

  /** What the transmitter knows, what happened to its planner, and what it has sent. */
  datatype Sender = Sender(
    nodes: Graph, events: seq<Event>, seqId: nat, nextSeqNo: nat, nextFeedbackAt: nat, nextKeepaliveAt: nat,
    outstanding: map<nat, FeedbackSample>, sends: seq<Relay.Send>)
  {
    /** A packet that is sent now is to be a sample. */
    predicate FeedbackDue(elapsedMs: nat) { elapsedMs >= nextFeedbackAt }
  }

  /** A message behind the 16 bytes of its seal. */
  function SealMessage(m: EndpointMessage): (payload: seq<Byte>)
    requires m.Valid()
    ensures |payload| == 16 + |EncodeMessage(m)|
  {
    seq(16, _ => 0) + EncodeMessage(m)
  }

  /** Behind an intact seal the message is found again. */
  lemma SealedReadsBack(m: EndpointMessage)
    requires m.Valid()
    ensures DecodeMessage(SealMessage(m)[16..]) == Some(m)
  {
    assert SealMessage(m)[16..] == EncodeMessage(m);
    MessageReadsBack(m);
  }

  /** The envelope of a packet on a route: the first hop is where it is sent, the rest is its plan. */
  function EnvelopeOn(plan: seq<nat>, stamp: Stamp, payload: seq<Byte>, padding: nat): Envelope
    requires plan != []
  {
    Envelope(stamp.time, stamp.seqId, stamp.seqNo, plan[1..], payload, padding)
  }

  /** Within the MTU, and opened by whoever gets it: this payload, under this stamp, on this route. */
  ghost predicate Carries(c: Config, send: Relay.Send, plan: seq<nat>, stamp: Stamp, payload: seq<Byte>) {
    && plan != [] && send.channelId == plan[0] && send.packet.Size() <= c.Mtu()
    && Relay.OpenPacket(send.packet).Ok?
    && var e := Relay.OpenPacket(send.packet).envelope;
       e.Valid() && e == EnvelopeOn(plan, stamp, payload, e.paddingLen)
  }

  lemma SealCarries(c: Config, plan: seq<nat>, stamp: Stamp, payload: seq<Byte>, padding: nat)
    requires plan != [] && EnvelopeOn(plan, stamp, payload, padding).Valid()
    requires UnpaddedLen(|plan|, |payload|) + padding <= c.Mtu()
    ensures var e := EnvelopeOn(plan, stamp, payload, padding);
            Carries(c, Relay.Send(plan[0], Relay.Seal(e)), plan, stamp, payload)
  {
    Relay.SealOpens(EnvelopeOn(plan, stamp, payload, padding));
  }

  /**
   What is planned for a packet covers it on every route, with as much padding as is set aside; on the longest
   route it is exactly that.
   */
  lemma BookedIsEnough(c: Config, send: Relay.Send, plan: seq<nat>, stamp: Stamp, payload: seq<Byte>)
    requires ConfigOk(c.graph) && Carries(c, send, plan, stamp, payload) && |plan| <= c.Hops()
    ensures var padding := Relay.OpenPacket(send.packet).envelope.paddingLen;
            && send.packet.Size() - padding + c.reserve <= c.ScheduledBytes(|payload|)
            && (|plan| == c.Hops() ==> send.packet.Size() - padding + c.reserve == c.ScheduledBytes(|payload|))
  {
    var e := Relay.OpenPacket(send.packet).envelope;
    EnvelopeIsCanonical(send.packet.content);
    EnvelopeParts(e);
  }

  /** What the planner has chosen is planned, and the roads stay as they were. */
  lemma PlanIsGood(
      g: GraphConfig, nodes: Graph, nodes': Graph, elapsedMs: nat, bytes: nat, sample: bool, path: seq<EdgeId>)
    requires ConfigOk(g) && ConfigChannels(g) && Roads(g, nodes)
    requires Booked(nodes, nodes', elapsedMs, bytes, sample, path)
    ensures Roads(g, nodes') && Spelled(g, ChannelsOf(nodes, path), path) && 1 <= |path| <= Longest(g, 0)
    ensures forall i :: 0 <= i < |path| ==> ChannelsOf(nodes, path)[i] < 0x1_0000
    ensures forall t: nat :: AllLocalInCooldown(nodes', t) <==> AllLocalInCooldown(nodes, t)
  {
    RouteIsPlanned(g, nodes, elapsedMs, path);
    ReservedKeepsRoads(g, nodes, nodes', elapsedMs, bytes, sample, path);
    forall t: nat ensures AllLocalInCooldown(nodes', t) <==> AllLocalInCooldown(nodes, t) {
      ReservedKeepsCooldown(nodes, nodes', elapsedMs, bytes, sample, path, t);
    }
  }

  /** A plan puts no edge in cooldown and takes none out. */
  lemma ReservedKeepsCooldown(g: Graph, g': Graph, elapsedMs: nat, bytes: nat, sample: bool, path: seq<EdgeId>, t: nat)
    requires |g| > 0 && forall k :: 0 <= k < |path| ==> IsEdge(g, path[k])
    requires Reserved(g, g', elapsedMs, bytes, sample, path)
    ensures |g'| == |g| && (AllLocalInCooldown(g', t) <==> AllLocalInCooldown(g, t))
  {
    forall k | 0 <= k < |g[0]|
      ensures At(g', EdgeId(0, k)).cooldownUntil == At(g, EdgeId(0, k)).cooldownUntil
    {
      var id := EdgeId(0, k);
      assert IsEdge(g, id);
      if id in path {
        var i :| 0 <= i < |path| && path[i] == id;
        assert IsEdge(g', path[i]);
      }
    }
  }

  /** A payload was sent over this path: the planner booked it, and the plan names its channels. */
  ghost predicate SentOver(
      c: Config, x: Sender, y: Sender, elapsedMs: nat, stamp: Stamp, payload: seq<Byte>, sample: bool,
      plan: seq<nat>, path: seq<EdgeId>)
    requires ConfigOk(c.graph) && |x.nodes| > 0
  {
    && Spelled(c.graph, plan, path)
    && y.events == x.events + [Plan(elapsedMs, c.ScheduledBytes(|payload|), sample, path)]
    && |y.nodes| > 0 && !AllLocalInCooldown(y.nodes, elapsedMs)
    && |y.sends| == |x.sends| + 1 && x.sends <= y.sends
    && Carries(c, y.sends[|x.sends|], plan, stamp, payload)
    && y.seqId == x.seqId && y.nextSeqNo == x.nextSeqNo
    && y.nextKeepaliveAt == (if c.keepaliveMs != 0 then elapsedMs + c.keepaliveMs else x.nextKeepaliveAt)
    && y.outstanding == (if sample
         then x.outstanding[PacketKey(stamp.seqId, stamp.seqNo) :=
                FeedbackSample(plan, elapsedMs, elapsedMs + c.feedbackTimeoutMs)]
         else x.outstanding)
    && (if sample
        then elapsedMs + c.feedbackIntervalMs <= y.nextFeedbackAt < elapsedMs + 2 * c.feedbackIntervalMs
        else y.nextFeedbackAt == x.nextFeedbackAt)
  }

  /** A payload is sent on a planned route, or not at all when every local edge is in cooldown. */
  ghost predicate Sent(
      c: Config, x: Sender, y: Sender, elapsedMs: nat, stamp: Stamp, payload: seq<Byte>, sample: bool)
    requires ConfigOk(c.graph) && |x.nodes| > 0
  {
    if AllLocalInCooldown(x.nodes, elapsedMs) then y == x
    else exists plan, path :: SentOver(c, x, y, elapsedMs, stamp, payload, sample, plan, path)
  }

  /** Numbers are used once, in order; a new sender id starts when they are used up. */
  predicate Numbers(x: Sender, seqId: nat, seqNo: nat) {
    && seqId < U48_SPAN && seqNo < U48_SPAN
    && if x.nextSeqNo < U48_SPAN then seqId == x.seqId && seqNo == x.nextSeqNo else seqNo == 0
  }

  function Counted(x: Sender, seqId: nat, seqNo: nat): Sender { x.(seqId := seqId, nextSeqNo := seqNo + 1) }

  ghost predicate SentUnder(
      c: Config, x: Sender, y: Sender, elapsedMs: nat, m: EndpointMessage, sample: bool, seqId: nat, seqNo: nat)
    requires ConfigOk(c.graph) && |x.nodes| > 0 && m.Valid()
  {
    && Numbers(x, seqId, seqNo)
    && Sent(c, Counted(x, seqId, seqNo), y, elapsedMs, Stamp(c.CurrentTime(elapsedMs), seqId, seqNo),
            SealMessage(m), sample)
  }

  /** A message is sent under the next stamp. */
  ghost predicate SentMessage(c: Config, x: Sender, y: Sender, elapsedMs: nat, m: EndpointMessage, sample: bool)
    requires ConfigOk(c.graph) && |x.nodes| > 0 && m.Valid()
  {
    exists seqId, seqNo :: SentUnder(c, x, y, elapsedMs, m, sample, seqId, seqNo)
  }

  // ------------------------------------------------------------------ KCP packets

  /** A KCP packet as it is sent: a sample asks for a reply. */
  function KcpMessage(packet: seq<Byte>, sample: bool): (m: EndpointMessage)
    ensures m.Valid()
  {
    KcpPacket(if sample then 1 else 0, packet)
  }

  ghost predicate SentKcpPacket(c: Config, x: Sender, y: Sender, elapsedMs: nat, packet: seq<Byte>)
    requires ConfigOk(c.graph)
  {
    |x.nodes| > 0
    && SentMessage(c, x, y, elapsedMs, KcpMessage(packet, x.FeedbackDue(elapsedMs)), x.FeedbackDue(elapsedMs))
  }

  /** The first `n` packets are sent one after the other, each as a sample when one is due. */
  ghost predicate SentKcp(c: Config, x: Sender, y: Sender, elapsedMs: nat, packets: seq<seq<Byte>>, n: nat)
    requires ConfigOk(c.graph) && n <= |packets|
    decreases n
  {
    if n == 0 then y == x
    else
      var before, last := n - 1, packets[n - 1];
      exists z :: SentKcp(c, x, z, elapsedMs, packets, before) && SentKcpPacket(c, z, y, elapsedMs, last)
  }

  lemma SentNext(c: Config, x: Sender, z: Sender, y: Sender, elapsedMs: nat, packets: seq<seq<Byte>>, n: nat)
    requires ConfigOk(c.graph) && n < |packets|
    requires SentKcp(c, x, z, elapsedMs, packets, n) && SentKcpPacket(c, z, y, elapsedMs, packets[n])
    ensures SentKcp(c, x, y, elapsedMs, packets, n + 1)
  {
  }

  /** The packet that was sent is this KCP packet. */
  ghost predicate CarriesKcp(c: Config, send: Relay.Send, elapsedMs: nat, packet: seq<Byte>, sample: bool) {
    && send.packet.Size() <= c.Mtu()
    && Relay.OpenPacket(send.packet).Ok?
    && var e := Relay.OpenPacket(send.packet).envelope;
       e.Valid() && e.time == c.CurrentTime(elapsedMs) && e.payload == SealMessage(KcpMessage(packet, sample))
  }

  /** The packet that was sent is the `i`-th after this state of the numbering. */
  predicate CarriesNumber(x: Sender, send: Relay.Send, i: nat) {
    && Relay.OpenPacket(send.packet).Ok?
    && var e := Relay.OpenPacket(send.packet).envelope;
       e.seqId == x.seqId && e.seqNo == x.nextSeqNo + i
  }

  /** What is sent next are the first `n` packets, in order; at most the first is a sample. */
  ghost predicate InOrder(c: Config, x: Sender, sends: seq<Relay.Send>, elapsedMs: nat, packets: seq<seq<Byte>>, n: nat)
    requires n <= |packets|
  {
    && |sends| == |x.sends| + n && x.sends <= sends
    && forall i :: 0 <= i < n ==> IsNext(c, x, sends, elapsedMs, packets, i)
  }

  ghost predicate IsNext(
      c: Config, x: Sender, sends: seq<Relay.Send>, elapsedMs: nat, packets: seq<seq<Byte>>, i: nat)
    requires i < |packets| && |x.sends| + i < |sends|
  {
    && CarriesKcp(c, sends[|x.sends| + i], elapsedMs, packets[i], i == 0 && x.FeedbackDue(elapsedMs))
    && (x.nextSeqNo + i < U48_SPAN ==> CarriesNumber(x, sends[|x.sends| + i], i))
  }

  /**
   All or none: either every local edge is in cooldown and nothing is sent, or every packet is
   sent exactly once, in order, within the MTU.  Only the first of them can be a sample: it is one
   when one was due.  Stamps are numbered without gaps, as long as the numbers last.
   */
  ghost predicate AllOrNone(c: Config, x: Sender, y: Sender, elapsedMs: nat, packets: seq<seq<Byte>>, n: nat)
    requires |x.nodes| > 0 && n <= |packets|
  {
    && |y.nodes| > 0 && (AllLocalInCooldown(y.nodes, elapsedMs) <==> AllLocalInCooldown(x.nodes, elapsedMs))
    && (if AllLocalInCooldown(x.nodes, elapsedMs)
        then y.sends == x.sends && y.outstanding == x.outstanding && y.nextFeedbackAt == x.nextFeedbackAt
        else
          && InOrder(c, x, y.sends, elapsedMs, packets, n)
          && (y.FeedbackDue(elapsedMs) <==> n == 0 && x.FeedbackDue(elapsedMs))
          && (!x.FeedbackDue(elapsedMs) ==> y.outstanding == x.outstanding))
    && (x.nextSeqNo + n <= U48_SPAN ==> y.seqId == x.seqId && y.nextSeqNo == x.nextSeqNo + n)
  }

  /** One packet: it is sent unless every local edge is in cooldown. */
  ghost predicate OneOrNone(c: Config, x: Sender, y: Sender, elapsedMs: nat, packet: seq<Byte>)
    requires |x.nodes| > 0
  {
    && |y.nodes| > 0 && (AllLocalInCooldown(y.nodes, elapsedMs) <==> AllLocalInCooldown(x.nodes, elapsedMs))
    && (if AllLocalInCooldown(x.nodes, elapsedMs)
        then y.sends == x.sends && y.outstanding == x.outstanding && y.nextFeedbackAt == x.nextFeedbackAt
        else
          && |y.sends| == |x.sends| + 1 && x.sends <= y.sends
          && CarriesKcp(c, y.sends[|x.sends|], elapsedMs, packet, x.FeedbackDue(elapsedMs))
          && (x.nextSeqNo < U48_SPAN ==> CarriesNumber(x, y.sends[|x.sends|], 0))
          && !y.FeedbackDue(elapsedMs)
          && (!x.FeedbackDue(elapsedMs) ==> y.outstanding == x.outstanding))
    && (x.nextSeqNo < U48_SPAN ==> y.seqId == x.seqId && y.nextSeqNo == x.nextSeqNo + 1)
  }

  lemma KcpPacketSent(c: Config, x: Sender, y: Sender, elapsedMs: nat, packet: seq<Byte>)
    requires ConfigOk(c.graph) && c.feedbackIntervalMs > 0
    requires SentKcpPacket(c, x, y, elapsedMs, packet)
    ensures OneOrNone(c, x, y, elapsedMs, packet)
  {
    var sample := x.FeedbackDue(elapsedMs);
    var m := KcpMessage(packet, sample);
    var seqId, seqNo :| SentUnder(c, x, y, elapsedMs, m, sample, seqId, seqNo);
    if !AllLocalInCooldown(x.nodes, elapsedMs) {
      var stamp := Stamp(c.CurrentTime(elapsedMs), seqId, seqNo);
      var plan, path :| SentOver(c, Counted(x, seqId, seqNo), y, elapsedMs, stamp, SealMessage(m), sample, plan, path);
    }
  }

  lemma {:induction false} KcpSendsAre(c: Config, x: Sender, y: Sender, elapsedMs: nat, packets: seq<seq<Byte>>, n: nat)
    requires ConfigOk(c.graph) && c.feedbackIntervalMs > 0 && |x.nodes| > 0 && n <= |packets|
    requires SentKcp(c, x, y, elapsedMs, packets, n)
    ensures AllOrNone(c, x, y, elapsedMs, packets, n)
    decreases n
  {
    if n == 0 {
      assert y == x;
    } else {
      var before, last := n - 1, packets[n - 1];
      var z :| SentKcp(c, x, z, elapsedMs, packets, before) && SentKcpPacket(c, z, y, elapsedMs, last);
      KcpSendsAre(c, x, z, elapsedMs, packets, before);
      KcpPacketSent(c, z, y, elapsedMs, last);
      OneMoreKcp(c, x, z, y, elapsedMs, packets, before);
    }
  }

  lemma OneMoreKcp(c: Config, x: Sender, z: Sender, y: Sender, elapsedMs: nat, packets: seq<seq<Byte>>, n: nat)
    requires n < |packets| && |x.nodes| > 0
    requires AllOrNone(c, x, z, elapsedMs, packets, n) && OneOrNone(c, z, y, elapsedMs, packets[n])
    ensures AllOrNone(c, x, y, elapsedMs, packets, n + 1)
  {
    if !AllLocalInCooldown(x.nodes, elapsedMs) { NextInOrder(c, x, z.sends, y.sends, elapsedMs, packets, n); }
  }

  lemma NextInOrder(
      c: Config, x: Sender, before: seq<Relay.Send>, after: seq<Relay.Send>, elapsedMs: nat,
      packets: seq<seq<Byte>>, n: nat)
    requires n < |packets| && InOrder(c, x, before, elapsedMs, packets, n)
    requires before <= after && |after| == |before| + 1
    requires CarriesKcp(c, after[|before|], elapsedMs, packets[n], n == 0 && x.FeedbackDue(elapsedMs))
    requires x.nextSeqNo + n < U48_SPAN ==> CarriesNumber(x, after[|before|], n)
    ensures InOrder(c, x, after, elapsedMs, packets, n + 1)
  {
    forall i | 0 <= i < n + 1 ensures IsNext(c, x, after, elapsedMs, packets, i) {
      if i < n {
        assert IsNext(c, x, before, elapsedMs, packets, i);
        assert after[|x.sends| + i] == before[|x.sends| + i];
      }
    }
  }

  // ------------------------------------------------------------------ keep-alives and replies

  function KeepAliveMessage(sample: bool): (m: EndpointMessage)
    ensures m.Valid()
  {
    KeepAlive(if sample then 1 else 0)
  }

  predicate KeepaliveDue(c: Config, x: Sender, elapsedMs: nat) { c.keepaliveMs != 0 && elapsedMs >= x.nextKeepaliveAt }

  /** A keep-alive, if nothing has been sent for long enough. */
  ghost predicate KeptAlive(c: Config, x: Sender, y: Sender, elapsedMs: nat)
    requires ConfigOk(c.graph) && |x.nodes| > 0
  {
    if !KeepaliveDue(c, x, elapsedMs) then y == x
    else
      var sample := x.FeedbackDue(elapsedMs);
      exists z ::
        && SentMessage(c, x, z, elapsedMs, KeepAliveMessage(sample), sample)
        && y == z.(nextKeepaliveAt := elapsedMs + c.keepaliveMs)
  }

  /** A reply is itself a sample at most three deep, and then asks for a deeper reply. */
  function ReplyTo(depth: nat, sample: bool, seqId: nat, seqNo: nat): (m: EndpointMessage)
    requires depth < 4 && seqId < U48_SPAN && seqNo < U48_SPAN && (sample ==> depth < 3)
    ensures m.Valid()
  {
    RouteReply(if sample then depth + 1 else 0, seqId, seqNo)
  }

  /** A message that asks for it is answered with its own stamp. */
  ghost predicate Answered(c: Config, x: Sender, y: Sender, elapsedMs: nat, depth: nat, seqId: nat, seqNo: nat)
    requires ConfigOk(c.graph) && |x.nodes| > 0 && depth < 4 && seqId < U48_SPAN && seqNo < U48_SPAN
  {
    if depth == 0 then y == x
    else
      var sample := depth < 3 && x.FeedbackDue(elapsedMs);
      SentMessage(c, x, y, elapsedMs, ReplyTo(depth, sample, seqId, seqNo), sample)
  }

  // ------------------------------------------------------------------ feedback

  /** A reply settles its sample, if that is still outstanding: the planner is told it has succeeded. */
  ghost predicate Settled(x: Sender, y: Sender, key: nat) {
    if key !in x.outstanding then y == x
    else
      var s := x.outstanding[key];
      y == x.(outstanding := x.outstanding - {key}, nodes := y.nodes,
              events := x.events + [Feedback(s.routePlan, s.sentAt, true)])
  }

  predicate NoneDue(samples: map<nat, FeedbackSample>, elapsedMs: nat) {
    forall key :: key in samples ==> elapsedMs < samples[key].deadline
  }

  /** The samples whose deadline has not come. */
  function Unexpired(samples: map<nat, FeedbackSample>, elapsedMs: nat): map<nat, FeedbackSample> {
    map key | key in samples && elapsedMs < samples[key].deadline :: samples[key]
  }

  /** Those of these samples whose time has come, each as a failure the planner is told of. */
  function Failures(samples: map<nat, FeedbackSample>, keys: seq<nat>, n: nat, elapsedMs: nat): seq<Event>
    requires n <= |keys| && forall i :: 0 <= i < |keys| ==> keys[i] in samples
  {
    if n == 0 then []
    else
      var s := samples[keys[n - 1]];
      Failures(samples, keys, n - 1, elapsedMs)
      + if elapsedMs >= s.deadline then [Feedback(s.routePlan, s.sentAt, false)] else []
  }

  function SampleKeys(samples: map<nat, FeedbackSample>): (keys: seq<nat>)
    ensures forall i :: 0 <= i < |keys| ==> keys[i] in samples
  {
    AscendingIs(samples.Keys);
    var keys := Ascending(samples.Keys);
    assert forall i :: 0 <= i < |keys| ==> keys[i] in keys;
    keys
  }

  /** Every failure, in the order of the packets' ids. */
  function AllFailures(samples: map<nat, FeedbackSample>, elapsedMs: nat): seq<Event> {
    Failures(samples, SampleKeys(samples), |SampleKeys(samples)|, elapsedMs)
  }

  /** Samples whose deadline has come have failed: the planner is told so, and they are forgotten. */
  ghost predicate Expired(x: Sender, y: Sender, elapsedMs: nat) {
    && y == x.(outstanding := Unexpired(x.outstanding, elapsedMs), nodes := y.nodes,
               events := x.events + AllFailures(x.outstanding, elapsedMs))
    && (NoneDue(x.outstanding, elapsedMs) ==> y == x)
  }

  lemma {:induction false} NoFailures(samples: map<nat, FeedbackSample>, keys: seq<nat>, n: nat, elapsedMs: nat)
    requires n <= |keys| && forall i :: 0 <= i < |keys| ==> keys[i] in samples
    requires NoneDue(samples, elapsedMs)
    ensures Failures(samples, keys, n, elapsedMs) == []
  {
    if n == 0 {
    } else {
      NoFailures(samples, keys, n - 1, elapsedMs);
    }
  }

  // ------------------------------------------------------------------ failed sends

  predicate HasChannel(g: Graph, channelId: nat) {
    |g| > 0 && exists k :: 0 <= k < |g[0]| && g[0][k].channelId == channelId
  }

  /** What is left to do when a packet could not be sent: its sample is void, and another is due. */
  function Voided(x: Sender, g: Graph, elapsedMs: nat, channelId: nat, key: nat): Sender {
    x.(nodes := g, events := x.events + [Failure(channelId, elapsedMs)], outstanding := x.outstanding - {key},
       nextFeedbackAt := if key in x.outstanding then elapsedMs else x.nextFeedbackAt)
  }

  /**
   A packet could not be sent: the local edge takes the failure, and a KCP packet is sent again, on
   a new route but under its old stamp, as a sample if it was one.
   */
  ghost predicate SendFailed(c: Config, x: Sender, y: Sender, elapsedMs: nat, channelId: nat, e: Envelope, isKcp: bool)
    requires ConfigOk(c.graph)
  {
    exists g :: SendFailedAt(c, x, y, elapsedMs, channelId, e, isKcp, g)
  }

  ghost predicate SendFailedAt(
      c: Config, x: Sender, y: Sender, elapsedMs: nat, channelId: nat, e: Envelope, isKcp: bool, g: Graph)
    requires ConfigOk(c.graph)
  {
    var key := PacketKey(e.seqId, e.seqNo);
    var z := Voided(x, g, elapsedMs, channelId, key);
    && |g| > 0
    && if isKcp
       then Sent(c, z, y, elapsedMs, Stamp(e.time, e.seqId, e.seqNo), e.payload, key in x.outstanding)
       else y == z
  }
}
