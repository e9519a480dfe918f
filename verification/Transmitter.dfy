/**
 The sending part of the endpoint: it gives packets their stamps, plans their routes, pads and
 seals them, and keeps the feedback samples whose replies are still outstanding.
 */
module Transmitter {
  import opened Budget
  import opened Bytes
  import opened KeyOrder
  import opened Options
  import Relay
  import opened RouteRuns
  import opened RouteSpec
  import opened RouteTable
  import opened RouteUpdate
  import opened Routing
  import opened SenderSpec
  import opened Wire

  class Transmitter {
    const config: Config
    const planner: RoutePlanner
    var seqId: nat
    var nextSeqNo: nat
    var nextFeedbackAt: nat
    var nextKeepaliveAt: nat
    var outstanding: map<nat, FeedbackSample>
    var sends: seq<Relay.Send>

    ghost function View(): Sender
      reads this, planner
    {
      Sender(planner.nodes, planner.events, seqId, nextSeqNo, nextFeedbackAt, nextKeepaliveAt, outstanding, sends)
    }

    ghost predicate Valid()
      reads this, planner
    {
      && config.Valid() && planner.Valid() && Roads(config.graph, planner.nodes)
      && seqId < U48_SPAN && nextSeqNo <= U48_SPAN
      && forall key :: key in outstanding ==> Planned(config.graph, outstanding[key].routePlan)
    }

    /** With `backlog` services promised now, packets can be planned until `top` are promised. */
    ghost predicate CanSend(elapsedMs: nat, backlog: nat, top: nat)
      reads planner
    {
      Backlogged(planner.nodes, elapsedMs, backlog) && Fit(elapsedMs, top, |config.graph|)
    }

    constructor (config: Config, seqId: nat)
      requires config.Valid() && seqId < U48_SPAN
      ensures Valid() && fresh(planner) && this.config == config
      ensures View() == Sender(planner.nodes, [], seqId, 0, 0, config.keepaliveMs, map[], [])
      ensures forall id :: IsEdge(planner.nodes, id) ==>
        At(planner.nodes, id) == RoutePlanner.NewEdge(config.graph[id.node][id.edge])
    {
      this.config := config;
      planner := new RoutePlanner(config.graph);
      this.seqId, nextSeqNo, nextFeedbackAt, nextKeepaliveAt := seqId, 0, 0, config.keepaliveMs;
      outstanding, sends := map[], [];
    }

    /** Later there is still room, as long as that time is not too late for it. */
    lemma StillCanSend(elapsedMs: nat, later: nat, backlog: nat, top: nat, laterTop: nat)
      requires CanSend(elapsedMs, backlog, top) && elapsedMs <= later && Fit(later, laterTop, |config.graph|)
      ensures CanSend(later, backlog, laterTop)
    {
      QueuesDrain(planner.nodes, elapsedMs, backlog, later, 0);
    }

    /**
     Sends a sealed payload under a stamp.  It is not sent exactly when all local edges are in
     cooldown; otherwise it goes out on the route that the planner chose, and fits the MTU.
     */
    method SendEnvelope(
        elapsedMs: nat, stamp: Stamp, payload: seq<Byte>, sample: bool, ghost backlog: nat, ghost top: nat)
      requires Valid() && CanSend(elapsedMs, backlog, top) && backlog + |config.graph| <= top
      requires stamp.time < TIME_SPAN && stamp.seqId < U48_SPAN && stamp.seqNo < U48_SPAN
      requires |payload| <= config.KcpLimit() + ENDPOINT_MESSAGE_OVERHEAD
      modifies this, planner
      ensures Valid() && CanSend(elapsedMs, backlog + |config.graph|, top)
      ensures Sent(config, old(View()), View(), elapsedMs, stamp, payload, sample)
    {
      ghost var x := View();
      ghost var path;
      var plan;
      plan, path := PlanRoute(elapsedMs, |payload|, sample, backlog, top);
      if plan.None? { return; }
      SendOver(elapsedMs, stamp, payload, sample, plan.value, path, x);
      assert SentOver(config, x, View(), elapsedMs, stamp, payload, sample, plan.value, path);
      assert Planned(config.graph, plan.value);
    }

    /** Sends a payload on the route that has just been planned for it. */
    method SendOver(
        elapsedMs: nat, stamp: Stamp, payload: seq<Byte>, sample: bool, plan: seq<nat>,
        ghost path: seq<EdgeId>, ghost x: Sender)
      requires config.Valid() && Spelled(config.graph, plan, path) && 1 <= |plan| <= config.Hops()
      requires forall i :: 0 <= i < |plan| ==> plan[i] < 0x1_0000
      requires stamp.time < TIME_SPAN && stamp.seqId < U48_SPAN && stamp.seqNo < U48_SPAN
      requires |payload| <= config.KcpLimit() + ENDPOINT_MESSAGE_OVERHEAD
      requires |planner.nodes| > 0 && !AllLocalInCooldown(planner.nodes, elapsedMs)
      requires View() == x.(nodes := planner.nodes, events := planner.events) && |x.nodes| > 0
      requires planner.events == x.events + [Plan(elapsedMs, config.ScheduledBytes(|payload|), sample, path)]
      modifies `sends, `nextKeepaliveAt, `outstanding, `nextFeedbackAt
      ensures SentOver(config, x, View(), elapsedMs, stamp, payload, sample, plan, path)
    {
      Pad(plan, stamp, payload);
      if config.keepaliveMs != 0 { nextKeepaliveAt := elapsedMs + config.keepaliveMs; }
      if sample { Remember(elapsedMs, PacketKey(stamp.seqId, stamp.seqNo), plan); }
    }

    /** Asks the planner for a route for a payload with everything that is set aside for it. */
    method PlanRoute(elapsedMs: nat, payloadLen: nat, sample: bool, ghost backlog: nat, ghost top: nat)
      returns (plan: Option<seq<nat>>, ghost path: seq<EdgeId>)
      requires Valid() && CanSend(elapsedMs, backlog, top) && backlog + |config.graph| <= top
      requires payloadLen <= config.KcpLimit() + ENDPOINT_MESSAGE_OVERHEAD
      modifies planner
      ensures Valid() && CanSend(elapsedMs, backlog + |config.graph|, top)
      ensures plan.None? <==> AllLocalInCooldown(old(planner.nodes), elapsedMs)
      ensures plan.None? ==> planner.nodes == old(planner.nodes) && planner.events == old(planner.events)
      ensures plan.Some? ==>
        && Spelled(config.graph, plan.value, path) && 1 <= |plan.value| <= config.Hops()
        && (forall i :: 0 <= i < |plan.value| ==> plan.value[i] < 0x1_0000)
        && !AllLocalInCooldown(planner.nodes, elapsedMs)
        && planner.events == old(planner.events) + [Plan(elapsedMs, config.ScheduledBytes(payloadLen), sample, path)]
    {
      ghost var nodes := planner.nodes;
      BudgetHolds(config.Mtu(), config.Hops(), config.Hops(), config.reserve, payloadLen, 0);
      var bytes := config.ScheduledBytes(payloadLen);
      plan, path := planner.BuildRoutePlan(elapsedMs, bytes, sample, backlog);
      if plan.Some? {
        PlanIsGood(config.graph, nodes, planner.nodes, elapsedMs, bytes, sample, path);
      }
    }

    /** Pads and seals the packet, and hands it to the channel of its first hop. */
    method Pad(plan: seq<nat>, stamp: Stamp, payload: seq<Byte>)
      requires config.Valid() && 1 <= |plan| <= config.Hops()
      requires forall i :: 0 <= i < |plan| ==> plan[i] < 0x1_0000
      requires stamp.time < TIME_SPAN && stamp.seqId < U48_SPAN && stamp.seqNo < U48_SPAN
      requires |payload| <= config.KcpLimit() + ENDPOINT_MESSAGE_OVERHEAD
      modifies `sends
      ensures |sends| == |old(sends)| + 1 && old(sends) <= sends
      ensures Carries(config, sends[|old(sends)|], plan, stamp, payload)
    {
      var paddingLen := PaddingFor(|plan|, |payload|);
      var e := EnvelopeOn(plan, stamp, payload, paddingLen);
      SealCarries(config, plan, stamp, payload, paddingLen);
      Transmit(plan[0], e);
    }

    /** A random padding length in the room that the route leaves: never none, never too much. */
    method PaddingFor(hops: nat, payloadLen: nat) returns (paddingLen: nat)
      requires config.Valid() && 1 <= hops <= config.Hops()
      requires payloadLen <= config.KcpLimit() + ENDPOINT_MESSAGE_OVERHEAD
      ensures 1 <= paddingLen <= 255
      ensures UnpaddedLen(hops, payloadLen) + paddingLen <= config.Mtu()
    {
      BudgetHolds(config.Mtu(), config.Hops(), hops, config.reserve, payloadLen, 0);
      var available := Available(config.Mtu(), hops, payloadLen);
      var random: nat := *;
      paddingLen := 1 + random % available;
    }

    method Remember(elapsedMs: nat, key: nat, plan: seq<nat>)
      requires config.feedbackIntervalMs > 0
      modifies `outstanding, `nextFeedbackAt
      ensures outstanding ==
              old(outstanding)[key := FeedbackSample(plan, elapsedMs, elapsedMs + config.feedbackTimeoutMs)]
      ensures elapsedMs + config.feedbackIntervalMs <= nextFeedbackAt < elapsedMs + 2 * config.feedbackIntervalMs
    {
      outstanding := outstanding[key := FeedbackSample(plan, elapsedMs, elapsedMs + config.feedbackTimeoutMs)];
      var random: nat := *;
      nextFeedbackAt := elapsedMs + config.feedbackIntervalMs + random % config.feedbackIntervalMs;
    }

    method Transmit(channelId: nat, e: Envelope)
      requires e.Valid()
      modifies `sends
      ensures sends == old(sends) + [Relay.Send(channelId, Relay.Seal(e))]
    {
      var bytes := EncodeWithPrefix(e, 0);
      EnvelopeParts(e);
      assert bytes == EnvelopeBytes(e);
      sends := sends + [Relay.Send(channelId, Relay.Sealed(true, bytes))];
    }

    // ---------------------------------------------------------------- stamps and messages

    /** The next stamp: numbers are used once, and a new sender id is drawn when they are used up. */
    method NextSequence() returns (id: nat, no: nat)
      requires Valid()
      modifies `seqId, `nextSeqNo
      ensures Valid() && Numbers(old(View()), id, no)
      ensures View() == Counted(old(View()), id, no)
    {
      if nextSeqNo > U48_SPAN - 1 {
        var random: nat := *;
        seqId := random % U48_SPAN;
        nextSeqNo := 0;
      }
      no := nextSeqNo;
      nextSeqNo := nextSeqNo + 1;
      id := seqId;
    }

    /** Sends a message under the next stamp. */
    method SendEndpointMessage(elapsedMs: nat, m: EndpointMessage, sample: bool, ghost backlog: nat, ghost top: nat)
      requires Valid() && CanSend(elapsedMs, backlog, top) && backlog + |config.graph| <= top && m.Valid()
      requires m.KcpPacket? ==> |m.packet| <= config.KcpLimit()
      modifies this, planner
      ensures Valid() && CanSend(elapsedMs, backlog + |config.graph|, top) && |old(planner.nodes)| > 0
      ensures SentMessage(config, old(View()), View(), elapsedMs, m, sample)
    {
      ghost var x := View();
      MessageFits(config, m);
      var id, no := NextSequence();
      SendEnvelope(elapsedMs, Stamp(config.CurrentTime(elapsedMs), id, no), SealMessage(m), sample, backlog, top);
      assert SentUnder(config, x, View(), elapsedMs, m, sample, id, no);
    }

    /** The first `n` of these packets have been sent, and have taken the room of as many. */
    ghost predicate HasSent(
        elapsedMs: nat, packets: seq<seq<Byte>>, n: nat, x: Sender, backlog: nat, top: nat)
      requires config.Valid() && n <= |packets|
      reads this, planner
    {
      && CanSend(elapsedMs, backlog + Services(n, |config.graph|), top)
      && SentKcp(config, x, View(), elapsedMs, packets, n)
    }

    /** Sends KCP packets, each as a sample when one is due. */
    method SendKcpPackets(elapsedMs: nat, packets: seq<seq<Byte>>, ghost backlog: nat, ghost top: nat)
      requires Valid() && CanSend(elapsedMs, backlog, top)
      requires backlog + Services(|packets|, |config.graph|) <= top
      requires forall i :: 0 <= i < |packets| ==> |packets[i]| <= config.KcpLimit()
      modifies this, planner
      ensures Valid() && CanSend(elapsedMs, backlog + Services(|packets|, |config.graph|), top)
      ensures |old(planner.nodes)| > 0 && SentKcp(config, old(View()), View(), elapsedMs, packets, |packets|)
    {
      ghost var x := View();
      for i := 0 to |packets|
        invariant Valid() && HasSent(elapsedMs, packets, i, x, backlog, top)
      {
        SendNextKcp(elapsedMs, packets, i, x, backlog, top);
      }
    }

    /** Sends the next of the packets. */
    method SendNextKcp(
        elapsedMs: nat, packets: seq<seq<Byte>>, i: nat, ghost x: Sender, ghost backlog: nat, ghost top: nat)
      requires Valid() && i < |packets| && HasSent(elapsedMs, packets, i, x, backlog, top)
      requires |packets[i]| <= config.KcpLimit() && backlog + Services(|packets|, |config.graph|) <= top
      modifies this, planner
      ensures Valid() && HasSent(elapsedMs, packets, i + 1, x, backlog, top)
    {
      ghost var z := View();
      var sample := elapsedMs >= nextFeedbackAt;
      FewerServices(|packets|, i + 1, |config.graph|);
      SendEndpointMessage(elapsedMs, KcpMessage(packets[i], sample), sample, backlog + Services(i, |config.graph|),
                          top);
      SentNext(config, x, z, View(), elapsedMs, packets, i);
    }

    // ---------------------------------------------------------------- feedback

    /** A reply has arrived: its sample, if it is still outstanding, succeeded. */
    method NoteReply(key: nat)
      requires Valid()
      modifies `outstanding, planner
      ensures Valid()
      ensures SameSchedule(old(planner.nodes), planner.nodes)
      ensures Settled(old(View()), View(), key)
    {
      if key in outstanding {
        Note(outstanding[key], true);
        outstanding := outstanding - {key};
      }
    }

    /** Tells the planner how a sample went; the plan leads to the edges it was sent over. */
    method Note(sample: FeedbackSample, success: bool)
      requires Valid() && Planned(config.graph, sample.routePlan)
      modifies planner
      ensures Valid() && SameSchedule(old(planner.nodes), planner.nodes)
      ensures planner.events == old(planner.events) + [Feedback(sample.routePlan, sample.sentAt, success)]
    {
      ghost var nodes := planner.nodes;
      ghost var walk := PlannedWalks(config.graph, nodes, sample.routePlan);
      planner.NoteFeedback(sample.routePlan, sample.sentAt, success, walk);
      ScheduleKeepsRoads(config.graph, nodes, planner.nodes);
    }

    /** Samples whose deadline has come failed, and are forgotten; no other is touched. */
    method ExpireFeedback(elapsedMs: nat)
      requires Valid()
      modifies `outstanding, planner
      ensures Valid()
      ensures SameSchedule(old(planner.nodes), planner.nodes)
      ensures Expired(old(View()), View(), elapsedMs)
    {
      ghost var x := View();
      var keys := SampleKeys(outstanding);
      FirstExpired(x, keys, elapsedMs);
      for i := 0 to |keys|
        invariant Valid()
        invariant ExpiredTo(x, View(), keys, i, elapsedMs)
      {
        ghost var z := View();
        PrunedNext(x.outstanding, keys, i, elapsedMs);
        ExpireSample(elapsedMs, keys[i]);
        NextExpired(x, z, View(), keys, i, elapsedMs);
      }
      AllExpired(x, View(), keys, elapsedMs);
    }

    method ExpireSample(elapsedMs: nat, key: nat)
      requires Valid() && key in outstanding
      modifies `outstanding, planner
      ensures Valid()
      ensures ExpiredOne(old(View()), View(), key, elapsedMs)
    {
      if elapsedMs >= outstanding[key].deadline {
        Note(outstanding[key], false);
        outstanding := outstanding - {key};
      }
    }

    /** The channel's edge takes the failure, and the packet's sample, if it was one, is void. */
    method VoidSample(elapsedMs: nat, channelId: nat, key: nat) returns (wasSample: bool)
      requires Valid() && HasChannel(planner.nodes, channelId)
      modifies `outstanding, `nextFeedbackAt, planner
      ensures Valid() && wasSample == (key in old(outstanding))
      ensures SameSchedule(old(planner.nodes), planner.nodes)
      ensures View() == Voided(old(View()), planner.nodes, elapsedMs, channelId, key)
    {
      ghost var g := planner.nodes;
      planner.NoteLocalSendFailure(channelId, elapsedMs);
      ScheduleKeepsRoads(config.graph, g, planner.nodes);
      wasSample := key in outstanding;
      outstanding := outstanding - {key};
      if wasSample { nextFeedbackAt := elapsedMs; }
    }

    /**
     One of the endpoint's own channels could not send a packet, which the shell gives back.  A KCP
     packet is sent another way.
     */
    method HandleSendFailed(
        elapsedMs: nat, channelId: nat, packet: Relay.Packet, ghost backlog: nat, ghost top: nat)
      requires Valid() && CanSend(elapsedMs, backlog, top) && backlog + |config.graph| <= top
      requires HasChannel(planner.nodes, channelId)
      requires Relay.OpenPacket(packet).Ok?
      requires var e := Relay.OpenPacket(packet).envelope;
               && e.Valid() && 16 <= |e.payload| <= config.KcpLimit() + ENDPOINT_MESSAGE_OVERHEAD
               && DecodeMessage(e.payload[16..]).Some?
      modifies this, planner
      ensures Valid() && CanSend(elapsedMs, backlog + |config.graph|, top)
      ensures var e := Relay.OpenPacket(packet).envelope;
              SendFailed(config, old(View()), View(), elapsedMs, channelId, e,
                         DecodeMessage(e.payload[16..]).value.KcpPacket?)
    {
      ghost var x := View();
      var e := Relay.OpenPacket(packet).envelope;
      var wasSample := VoidSample(elapsedMs, channelId, PacketKey(e.seqId, e.seqNo));
      ghost var g := planner.nodes;
      ScheduleKeepsBacklog(x.nodes, g, elapsedMs, backlog);
      var isKcp := DecodeMessage(e.payload[16..]).value.KcpPacket?;
      if isKcp { SendEnvelope(elapsedMs, Stamp(e.time, e.seqId, e.seqNo), e.payload, wasSample, backlog, top); }
      MoreIsBacklogged(g, elapsedMs, backlog, backlog + |config.graph|);
      assert SendFailedAt(config, x, View(), elapsedMs, channelId, e, isKcp, g);
    }
  }

  /** Every message has room: a KCP packet within the limit, the others because they are short. */
  lemma MessageFits(c: Config, m: EndpointMessage)
    requires c.Valid() && m.Valid() && (m.KcpPacket? ==> |m.packet| <= c.KcpLimit())
    ensures |SealMessage(m)| <= c.KcpLimit() + ENDPOINT_MESSAGE_OVERHEAD
    ensures c.ScheduledBytes(|SealMessage(m)|) <= MAX_PACKET
  {
    BudgetHolds(c.Mtu(), c.Hops(), c.Hops(), c.reserve, |SealMessage(m)|, 0);
  }

  lemma SchedulesAdd(g: Graph, h: Graph, k: Graph)
    requires SameSchedule(g, h) && SameSchedule(h, k)
    ensures SameSchedule(g, k)
  {
    forall id | IsEdge(g, id) ensures IsEdge(h, id) {
    }
  }

  /** A sample whose time has come has failed; another is left alone. */
  ghost predicate ExpiredOne(x: Sender, y: Sender, key: nat, elapsedMs: nat)
    requires key in x.outstanding
  {
    var s := x.outstanding[key];
    if elapsedMs >= s.deadline
    then
      && SameSchedule(x.nodes, y.nodes)
      && y == x.(outstanding := x.outstanding - {key}, nodes := y.nodes,
                 events := x.events + [Feedback(s.routePlan, s.sentAt, false)])
    else y == x
  }

  /** The samples once these keys have been looked at. */
  function Pruned(samples: map<nat, FeedbackSample>, seen: seq<nat>, elapsedMs: nat): map<nat, FeedbackSample> {
    map key | key in samples && (key !in seen || elapsedMs < samples[key].deadline) :: samples[key]
  }

  /** The first `n` samples have been looked at. */
  ghost predicate ExpiredTo(x: Sender, y: Sender, keys: seq<nat>, n: nat, elapsedMs: nat)
    requires keys == SampleKeys(x.outstanding) && n <= |keys|
  {
    && y == x.(outstanding := Pruned(x.outstanding, keys[..n], elapsedMs), nodes := y.nodes,
               events := x.events + Failures(x.outstanding, keys, n, elapsedMs))
    && SameSchedule(x.nodes, y.nodes)
    && (NoneDue(x.outstanding, elapsedMs) ==> y.nodes == x.nodes)
  }

  lemma FirstExpired(x: Sender, keys: seq<nat>, elapsedMs: nat)
    requires keys == SampleKeys(x.outstanding)
    ensures ExpiredTo(x, x, keys, 0, elapsedMs)
  {
    assert Pruned(x.outstanding, keys[..0], elapsedMs) == x.outstanding;
  }

  lemma NextExpired(x: Sender, z: Sender, y: Sender, keys: seq<nat>, n: nat, elapsedMs: nat)
    requires keys == SampleKeys(x.outstanding) && n < |keys|
    requires ExpiredTo(x, z, keys, n, elapsedMs) && keys[n] in z.outstanding && ExpiredOne(z, y, keys[n], elapsedMs)
    ensures ExpiredTo(x, y, keys, n + 1, elapsedMs)
  {
    PrunedNext(x.outstanding, keys, n, elapsedMs);
    SchedulesAdd(x.nodes, z.nodes, y.nodes);
  }

  /** After the last key everything due has been given up. */
  lemma AllExpired(x: Sender, y: Sender, keys: seq<nat>, elapsedMs: nat)
    requires keys == SampleKeys(x.outstanding) && ExpiredTo(x, y, keys, |keys|, elapsedMs)
    ensures Expired(x, y, elapsedMs)
  {
    AllPruned(x.outstanding, keys, elapsedMs);
    if NoneDue(x.outstanding, elapsedMs) { NoFailures(x.outstanding, keys, |keys|, elapsedMs); }
  }

  lemma AllPruned(samples: map<nat, FeedbackSample>, keys: seq<nat>, elapsedMs: nat)
    requires keys == SampleKeys(samples)
    ensures Pruned(samples, keys[..|keys|], elapsedMs) == Unexpired(samples, elapsedMs)
    ensures NoneDue(samples, elapsedMs) ==> Unexpired(samples, elapsedMs) == samples
  {
    AscendingIs(samples.Keys);
    assert keys[..|keys|] == keys;
  }

  lemma PrunedNext(samples: map<nat, FeedbackSample>, keys: seq<nat>, i: nat, elapsedMs: nat)
    requires keys == SampleKeys(samples) && i < |keys|
    ensures var before, after := Pruned(samples, keys[..i], elapsedMs), Pruned(samples, keys[..i + 1], elapsedMs);
            && keys[i] in before && before[keys[i]] == samples[keys[i]]
            && after == if elapsedMs >= samples[keys[i]].deadline then before - {keys[i]} else before
  {
    AscendingIs(samples.Keys);
    assert keys[..i + 1] == keys[..i] + [keys[i]];
  }
}
