/**
 What endpoints tell each other besides KCP: samples and their replies, keep-alives, and packets that have
 to be sent again; told on the packets that go out and on what the planner learns.
 */
module Exchanges {
  import opened Bytes
  import opened Endpoint
  import EndpointRuns
  import opened KeyOrder
  import opened Options
  import Relay
  import opened RouteRuns
  import opened RouteSpec
  import opened SenderSpec
  import opened Wire

  /** Whoever opens the packet finds this message under a stamp of this time. */
  ghost predicate Says(c: Config, send: Relay.Send, now: nat, m: EndpointMessage)
    requires m.Valid()
  {
    && send.packet.Size() <= c.Mtu() && Relay.OpenPacket(send.packet).Ok?
    && var e := Relay.OpenPacket(send.packet).envelope;
       e.Valid() && e.time == c.CurrentTime(now) && e.payload == SealMessage(m)
  }

  /** The id of a packet is that of its stamp. */
  function KeyOf(send: Relay.Send): nat
    requires Relay.OpenPacket(send.packet).Ok?
  {
    var e := Relay.OpenPacket(send.packet).envelope;
    PacketKey(e.seqId, e.seqNo)
  }

  /** The channels that the packet is to take, this one first. */
  function RouteOf(send: Relay.Send): seq<nat>
    requires Relay.OpenPacket(send.packet).Ok?
  {
    [send.channelId] + Relay.OpenPacket(send.packet).envelope.routePlan
  }

  /** One packet went out, with this message; if it is a sample, a reply to it is awaited from now on. */
  ghost predicate SaidOnce(c: Config, x: Sender, y: Sender, now: nat, m: EndpointMessage, sample: bool)
    requires m.Valid()
  {
    && |y.sends| == |x.sends| + 1 && x.sends <= y.sends && Says(c, y.sends[|x.sends|], now, m)
    && y.outstanding == (if sample
         then x.outstanding[KeyOf(y.sends[|x.sends|]) :=
                FeedbackSample(RouteOf(y.sends[|x.sends|]), now, now + c.feedbackTimeoutMs)]
         else x.outstanding)
    && (sample ==> !y.FeedbackDue(now))
    && UnderNextNumber(x, y, Relay.OpenPacket(y.sends[|x.sends|].packet).envelope)
  }

  /** The stamp has the sender's next number, and the one after it is next now; a new id begins with zero. */
  predicate UnderNextNumber(x: Sender, y: Sender, e: Envelope) {
    && e.seqId == y.seqId && e.seqNo + 1 == y.nextSeqNo
    && (if x.nextSeqNo < U48_SPAN then e.seqId == x.seqId && e.seqNo == x.nextSeqNo else e.seqNo == 0)
  }

  /** One packet went out, with this payload under this stamp; if it is a sample, a reply to it is awaited. */
  ghost predicate WentOut(
      c: Config, x: Sender, y: Sender, now: nat, stamp: Stamp, payload: seq<Byte>, sample: bool)
  {
    && |y.sends| == |x.sends| + 1 && x.sends <= y.sends && x.events <= y.events && |y.nodes| > 0
    && y.seqId == x.seqId && y.nextSeqNo == x.nextSeqNo
    && var send := y.sends[|x.sends|];
       && send.packet.Size() <= c.Mtu() && Relay.OpenPacket(send.packet).Ok?
       && var e := Relay.OpenPacket(send.packet).envelope;
          && e.Valid() && e.time == stamp.time && e.seqId == stamp.seqId && e.seqNo == stamp.seqNo
          && e.payload == payload
          && y.outstanding == (if sample
               then x.outstanding[PacketKey(stamp.seqId, stamp.seqNo) :=
                      FeedbackSample(RouteOf(send), now, now + c.feedbackTimeoutMs)]
               else x.outstanding)
  }

  lemma PayloadIsSent(c: Config, x: Sender, y: Sender, now: nat, stamp: Stamp, payload: seq<Byte>, sample: bool)
    requires ConfigOk(c.graph) && c.feedbackIntervalMs > 0 && |x.nodes| > 0 && !AllLocalInCooldown(x.nodes, now)
    requires Sent(c, x, y, now, stamp, payload, sample)
    ensures WentOut(c, x, y, now, stamp, payload, sample) && (sample ==> !y.FeedbackDue(now))
  {
    var plan, path :| SentOver(c, x, y, now, stamp, payload, sample, plan, path);
    assert plan == [plan[0]] + plan[1..];
  }

  /** A message goes out in one packet, unless every local edge is in cooldown; then nothing does. */
  lemma MessageIsSent(c: Config, x: Sender, y: Sender, now: nat, m: EndpointMessage, sample: bool)
    requires ConfigOk(c.graph) && c.feedbackIntervalMs > 0 && |x.nodes| > 0 && m.Valid()
    requires SentMessage(c, x, y, now, m, sample)
    ensures if AllLocalInCooldown(x.nodes, now)
            then y.sends == x.sends && y.outstanding == x.outstanding
            else SaidOnce(c, x, y, now, m, sample)
  {
    var seqId, seqNo :| SentUnder(c, x, y, now, m, sample, seqId, seqNo);
    if !AllLocalInCooldown(x.nodes, now) {
      PayloadIsSent(c, Counted(x, seqId, seqNo), y, now, Stamp(c.CurrentTime(now), seqId, seqNo), SealMessage(m),
                    sample);
    }
  }

  // ------------------------------------------------------------------ keep-alives

  /** When it is time a keep-alive goes out, unless there is no way, and the next is due an interval later. */
  lemma KeepAliveIsSent(c: Config, x: Sender, y: Sender, now: nat)
    requires ConfigOk(c.graph) && c.feedbackIntervalMs > 0 && |x.nodes| > 0 && KeptAlive(c, x, y, now)
    ensures if c.keepaliveMs == 0 || now < x.nextKeepaliveAt || AllLocalInCooldown(x.nodes, now)
            then y.sends == x.sends && y.outstanding == x.outstanding
            else SaidOnce(c, x, y, now, KeepAlive(if now >= x.nextFeedbackAt then 1 else 0), now >= x.nextFeedbackAt)
    ensures c.keepaliveMs != 0 ==> now < y.nextKeepaliveAt
  {
    if c.keepaliveMs != 0 && now >= x.nextKeepaliveAt {
      var sample := now >= x.nextFeedbackAt;
      var z :| SentMessage(c, x, z, now, KeepAliveMessage(sample), sample)
        && y == z.(nextKeepaliveAt := now + c.keepaliveMs);
      MessageIsSent(c, x, z, now, KeepAliveMessage(sample), sample);
    }
  }

  // ------------------------------------------------------------------ a sample and its reply

  /** The packet that arrives when relays have sent this one on. */
  function Arriving(packet: Relay.Packet, sends: seq<Relay.Send>): Relay.Packet {
    if sends == [] then packet else sends[|sends| - 1].packet
  }

  /** Relays have sent the packet on over all of its route. */
  ghost predicate Travels(send: Relay.Send, sends: seq<Relay.Send>) {
    && Relay.OpenPacket(send.packet).Ok? && Relay.Journey(send.packet, sends)
    && |sends| == |Relay.OpenPacket(send.packet).envelope.routePlan|
  }

  /** Over all of its route a message survives, and so does its stamp. */
  lemma MessageSurvives(c: Config, send: Relay.Send, now: nat, m: EndpointMessage, sends: seq<Relay.Send>)
    requires m.Valid() && Says(c, send, now, m) && Travels(send, sends)
    ensures EndpointRuns.MessageIn(Arriving(send.packet, sends), true) == Some(m)
    ensures var s, e := EndpointRuns.PacketStamp(Arriving(send.packet, sends)), Relay.OpenPacket(send.packet).envelope;
            s.seqId == e.seqId && s.seqNo == e.seqNo && s.time == e.time
  {
    var e := Relay.OpenPacket(send.packet).envelope;
    SealedReadsBack(m);
    if sends != [] { var n := Relay.FullJourneyArrives(send.packet, sends, e); }
  }

  /** A message that asks for a reply gets one, with its own stamp in it. */
  lemma ReplyIsSent(c: Config, x: Sender, y: Sender, now: nat, depth: nat, seqId: nat, seqNo: nat)
    requires ConfigOk(c.graph) && c.feedbackIntervalMs > 0 && |x.nodes| > 0
    requires 0 < depth < 4 && seqId < U48_SPAN && seqNo < U48_SPAN && !AllLocalInCooldown(x.nodes, now)
    requires Answered(c, x, y, now, depth, seqId, seqNo)
    ensures var sample := depth < 3 && now >= x.nextFeedbackAt;
            SaidOnce(c, x, y, now, RouteReply(if sample then depth + 1 else 0, seqId, seqNo), sample)
  {
    var sample := depth < 3 && now >= x.nextFeedbackAt;
    MessageIsSent(c, x, y, now, ReplyTo(depth, sample, seqId, seqNo), sample);
  }

  /** A reply to a packet that is awaited is told the planner, once. */
  lemma ReplyIsTold(c: Config, x: Sender, y: Sender, now: nat, depth: nat, seqId: nat, seqNo: nat)
    requires ConfigOk(c.graph) && EndpointCore.Dispatched(c, x, y, now, RouteReply(depth, seqId, seqNo), [])
    ensures var key := PacketKey(seqId, seqNo);
            if key in x.outstanding
            then y.outstanding == x.outstanding - {key}
              && y.events == x.events + [Feedback(x.outstanding[key].routePlan, x.outstanding[key].sentAt, true)]
            else y == x
  {
  }

  /**
   A sample comes back: what one endpoint sends as a sample, the other answers with its stamp; and when that
   reply arrives while the sample is still awaited, the planner is told that the route it took has succeeded.
   `x` and `y` are the first endpoint as it sends, `u` and `v` the other as it answers, `z` and `w` the first
   again as the reply is dispatched.
   */
  lemma SampleComesBack(
      c: Config, x: Sender, y: Sender, sentAt: nat, m: EndpointMessage, there: seq<Relay.Send>,
      d: Config, u: Sender, v: Sender, now: nat, back: seq<Relay.Send>, z: Sender, w: Sender, later: nat)
    requires ConfigOk(c.graph) && ConfigOk(d.graph) && c.feedbackIntervalMs > 0 && d.feedbackIntervalMs > 0
    requires |x.nodes| > 0 && |u.nodes| > 0 && m.Valid() && m.replyDepth > 0
    requires SentMessage(c, x, y, sentAt, m, true) && !AllLocalInCooldown(x.nodes, sentAt)
    requires |y.sends| > |x.sends| && Travels(y.sends[|x.sends|], there)
    requires var s := Relay.OpenPacket(y.sends[|x.sends|].packet).envelope;
             s.seqId < U48_SPAN && s.seqNo < U48_SPAN
             && Answered(d, u, v, now, m.replyDepth, s.seqId, s.seqNo) && !AllLocalInCooldown(u.nodes, now)
    requires |v.sends| > |u.sends| && Travels(v.sends[|u.sends|], back)
    requires KeyOf(y.sends[|x.sends|]) in z.outstanding
    requires z.outstanding[KeyOf(y.sends[|x.sends|])] == y.outstanding[KeyOf(y.sends[|x.sends|])]
    requires EndpointRuns.MessageIn(Arriving(v.sends[|u.sends|].packet, back), true).Some? ==>
      EndpointCore.Dispatched(
        c, z, w, later, EndpointRuns.MessageIn(Arriving(v.sends[|u.sends|].packet, back), true).value, [])
    ensures EndpointRuns.MessageIn(Arriving(y.sends[|x.sends|].packet, there), true) == Some(m)
    ensures EndpointRuns.PacketStamp(Arriving(y.sends[|x.sends|].packet, there)).seqId
      == Relay.OpenPacket(y.sends[|x.sends|].packet).envelope.seqId
    ensures w.events == z.events + [Feedback(RouteOf(y.sends[|x.sends|]), sentAt, true)]
    ensures KeyOf(y.sends[|x.sends|]) !in w.outstanding
  {
    var sent := y.sends[|x.sends|];
    var s := Relay.OpenPacket(sent.packet).envelope;
    MessageIsSent(c, x, y, sentAt, m, true);
    MessageSurvives(c, sent, sentAt, m, there);
    ReplyIsSent(d, u, v, now, m.replyDepth, s.seqId, s.seqNo);
    var sample := m.replyDepth < 3 && now >= u.nextFeedbackAt;
    var depth := if sample then m.replyDepth + 1 else 0;
    MessageSurvives(d, v.sends[|u.sends|], now, RouteReply(depth, s.seqId, s.seqNo), back);
    ReplyIsTold(c, z, w, later, depth, s.seqId, s.seqNo);
  }

  // ------------------------------------------------------------------ what does not come back

  /** What the planner is told about the sample `key` when its time is over. */
  function FailureOf(x: Sender, key: nat): Event
    requires key in x.outstanding
  {
    Feedback(x.outstanding[key].routePlan, x.outstanding[key].sentAt, false)
  }

  ghost predicate IsFailure(x: Sender, now: nat, e: Event) {
    exists key :: key in x.outstanding && now >= x.outstanding[key].deadline && e == FailureOf(x, key)
  }

  ghost predicate OnlyFailures(x: Sender, now: nat, told: seq<Event>) {
    forall i :: 0 <= i < |told| ==> IsFailure(x, now, told[i])
  }

  lemma OneFailureMore(x: Sender, now: nat, told: seq<Event>, key: nat)
    requires OnlyFailures(x, now, told) && key in x.outstanding && now >= x.outstanding[key].deadline
    ensures OnlyFailures(x, now, told + [FailureOf(x, key)])
  {
    assert IsFailure(x, now, FailureOf(x, key));
  }

  /** Of the first `n` keys, what has been told of those whose time is over. */
  lemma {:induction false} FailuresAre(x: Sender, keys: seq<nat>, n: nat, now: nat)
    requires n <= |keys| && forall i :: 0 <= i < |keys| ==> keys[i] in x.outstanding
    ensures OnlyFailures(x, now, Failures(x.outstanding, keys, n, now))
    ensures forall i :: 0 <= i < n && now >= x.outstanding[keys[i]].deadline ==>
      FailureOf(x, keys[i]) in Failures(x.outstanding, keys, n, now)
  {
    if n == 0 {
    } else {
      var key, before := keys[n - 1], Failures(x.outstanding, keys, n - 1, now);
      FailuresAre(x, keys, n - 1, now);
      if now >= x.outstanding[key].deadline { OneFailureMore(x, now, before, key); }
      forall i | 0 <= i < n && now >= x.outstanding[keys[i]].deadline
        ensures FailureOf(x, keys[i]) in Failures(x.outstanding, keys, n, now)
      {
        if i == n - 1 {
          assert Failures(x.outstanding, keys, n, now)[|before|] == FailureOf(x, key);
        } else {
          assert FailureOf(x, keys[i]) in before;
        }
      }
    }
  }

  /** Each sample whose time is over, and only such, is awaited no more and has been told the planner as failed. */
  lemma ExpiryIsTold(x: Sender, y: Sender, now: nat)
    requires Expired(x, y, now)
    ensures forall key :: key in y.outstanding <==> key in x.outstanding && now < x.outstanding[key].deadline
    ensures forall key :: key in y.outstanding ==> y.outstanding[key] == x.outstanding[key]
    ensures x.events <= y.events && y.sends == x.sends
    ensures forall key :: key in x.outstanding && now >= x.outstanding[key].deadline ==>
      FailureOf(x, key) in y.events[|x.events|..]
    ensures forall i :: |x.events| <= i < |y.events| ==> IsFailure(x, now, y.events[i])
  {
    var keys := SampleKeys(x.outstanding);
    AscendingIs(x.outstanding.Keys);
    FailuresAre(x, keys, |keys|, now);
    var told := AllFailures(x.outstanding, now);
    assert y.events[|x.events|..] == told;
    forall key | key in x.outstanding && now >= x.outstanding[key].deadline ensures FailureOf(x, key) in told {
      assert key in keys;
    }
    forall i | |x.events| <= i < |y.events| ensures IsFailure(x, now, y.events[i]) {
      assert y.events[i] == told[i - |x.events|];
    }
  }

  /** The planner is told of the failed channel first, whatever else is done. */
  ghost predicate ToldOfFailure(x: Sender, y: Sender, channelId: nat, now: nat) {
    |y.events| > |x.events| && x.events <= y.events && y.events[|x.events|] == Failure(channelId, now)
  }

  /**
   A packet that could not be sent: the planner is told, and the wait for a reply to it is over, but another
   sample is due at once.  A KCP packet goes out again, with its old stamp and payload, unless there is no way
   left; if a reply to it was awaited, it is awaited again.
   */
  lemma LostIsSentAgain(c: Config, x: Sender, y: Sender, now: nat, channelId: nat, e: Envelope, isKcp: bool)
    returns (z: Sender)
    requires ConfigOk(c.graph) && c.feedbackIntervalMs > 0 && SendFailed(c, x, y, now, channelId, e, isKcp)
    ensures NoLongerAwaited(x, z, channelId, now, PacketKey(e.seqId, e.seqNo))
    ensures if isKcp && !AllLocalInCooldown(z.nodes, now)
            then WentOut(c, z, y, now, Stamp(e.time, e.seqId, e.seqNo), e.payload,
                         PacketKey(e.seqId, e.seqNo) in x.outstanding)
            else y == z
  {
    var g :| SendFailedAt(c, x, y, now, channelId, e, isKcp, g);
    var key := PacketKey(e.seqId, e.seqNo);
    z := Voided(x, g, now, channelId, key);
    if isKcp && !AllLocalInCooldown(g, now) {
      PayloadIsSent(c, z, y, now, Stamp(e.time, e.seqId, e.seqNo), e.payload, key in x.outstanding);
    }
  }

  ghost predicate NoLongerAwaited(x: Sender, z: Sender, channelId: nat, now: nat, key: nat) {
    && |z.nodes| > 0 && z.sends == x.sends && z.outstanding == x.outstanding - {key}
    && z.events == x.events + [Failure(channelId, now)]
    && (key in x.outstanding ==> z.nextFeedbackAt == now)
  }
}
