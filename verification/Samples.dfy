/**
 How many samples can be outstanding at a time.  Samples are sent at least an interval apart, so
 that no more than the timeout has room for are outstanding, as long as no sample fails late: after
 a younger one has been sent.  A late failure breaks the bound.
 */
module Samples {
  import opened Budget
  import opened Bytes
  import opened Options
  import Relay
  import opened RouteRuns
  import opened RouteSpec
  import RouteUpdate
  import opened SenderSpec
  import opened Wire

  /** What a sender does: a message, a packet that could not be sent, a reply, expiry. */
  datatype Deal =
    | Says(m: EndpointMessage, sample: bool)
    | Loses(channelId: nat, e: Envelope, isKcp: bool)
    | Hears(key: nat)
    | Expires

  /** The sender has handed this envelope to this channel. */
  ghost predicate WasSent(x: Sender, channelId: nat, e: Envelope) {
    exists i :: 0 <= i < |x.sends| && IsSend(x.sends[i], channelId, e)
  }

  predicate IsSend(send: Relay.Send, channelId: nat, e: Envelope) {
    send.channelId == channelId && Relay.OpenPacket(send.packet) == Relay.Ok(e)
  }

  /** A message is a sample only when one is due; what is lost had been sent. */
  ghost predicate Deals(c: Config, x: Sender, y: Sender, now: nat, d: Deal)
    requires ConfigOk(c.graph) && |x.nodes| > 0
  {
    match d
    case Says(m, sample) =>
      && m.Valid() && (sample ==> x.FeedbackDue(now))
      && exists z :: SentMessage(c, x, z, now, m, sample) && y == z.(nextKeepaliveAt := y.nextKeepaliveAt)
    case Loses(channelId, e, isKcp) => WasSent(x, channelId, e) && SendFailed(c, x, y, now, channelId, e, isKcp)
    case Hears(key) => Settled(x, y, key)
    case Expires => Expired(x, y, now)
  }

  // ------------------------------------------------------------------ samples are spaced

  predicate Apart(interval: nat, s: FeedbackSample, t: FeedbackSample) {
    s.sentAt + interval <= t.sentAt || t.sentAt + interval <= s.sentAt
  }

  /** Outstanding samples are an interval apart, and the next is due an interval after all of them. */
  ghost predicate Spaced(c: Config, x: Sender, now: nat) {
    && (forall key :: key in x.outstanding ==> SampleOk(c, x, now, x.outstanding[key]))
    && forall k, j :: k in x.outstanding && j in x.outstanding && k != j ==>
         Apart(c.feedbackIntervalMs, x.outstanding[k], x.outstanding[j])
  }

  predicate SampleOk(c: Config, x: Sender, now: nat, s: FeedbackSample) {
    && s.sentAt <= now && s.deadline == s.sentAt + c.feedbackTimeoutMs
    && s.sentAt + c.feedbackIntervalMs <= x.nextFeedbackAt
  }

  /** A sample is lost late when a younger one is outstanding. */
  ghost predicate Late(x: Sender, d: Deal) {
    d.Loses? &&
    var lost := PacketKey(d.e.seqId, d.e.seqNo);
    lost in x.outstanding
    && exists key :: key in x.outstanding && x.outstanding[key].sentAt > x.outstanding[lost].sentAt
  }

  lemma SendKeepsSpaced(
      c: Config, x: Sender, y: Sender, now: nat, stamp: Stamp, payload: seq<Byte>, sample: bool)
    requires ConfigOk(c.graph) && |x.nodes| > 0 && Spaced(c, x, now)
    requires (sample ==> x.FeedbackDue(now)) && Sent(c, x, y, now, stamp, payload, sample)
    ensures Spaced(c, y, now)
  {
    if !AllLocalInCooldown(x.nodes, now) {
      var plan, path :| SentOver(c, x, y, now, stamp, payload, sample, plan, path);
    }
  }

  lemma SaysKeepsSpaced(c: Config, x: Sender, y: Sender, now: nat, m: EndpointMessage, sample: bool)
    requires ConfigOk(c.graph) && |x.nodes| > 0 && Spaced(c, x, now)
    requires Deals(c, x, y, now, Says(m, sample))
    ensures Spaced(c, y, now)
  {
    var z :| SentMessage(c, x, z, now, m, sample) && y == z.(nextKeepaliveAt := y.nextKeepaliveAt);
    var seqId, seqNo :| SentUnder(c, x, z, now, m, sample, seqId, seqNo);
    SendKeepsSpaced(c, Counted(x, seqId, seqNo), z, now, Stamp(c.CurrentTime(now), seqId, seqNo), SealMessage(m),
                    sample);
  }

  /** The youngest sample is void: the others were an interval before it. */
  lemma LossKeepsSpaced(c: Config, x: Sender, y: Sender, now: nat, d: Deal)
    requires ConfigOk(c.graph) && |x.nodes| > 0 && Spaced(c, x, now)
    requires d.Loses? && Deals(c, x, y, now, d) && !Late(x, d)
    ensures Spaced(c, y, now)
  {
    var g :| SendFailedAt(c, x, y, now, d.channelId, d.e, d.isKcp, g);
    var lost := PacketKey(d.e.seqId, d.e.seqNo);
    var z := Voided(x, g, now, d.channelId, lost);
    forall key | key in z.outstanding ensures SampleOk(c, z, now, z.outstanding[key]) {
      if lost in x.outstanding { assert Apart(c.feedbackIntervalMs, x.outstanding[key], x.outstanding[lost]); }
    }
    assert Spaced(c, z, now);
    if d.isKcp {
      SendKeepsSpaced(c, z, y, now, Stamp(d.e.time, d.e.seqId, d.e.seqNo), d.e.payload, lost in x.outstanding);
    }
  }

  lemma DealKeepsSpaced(c: Config, x: Sender, y: Sender, clock: nat, now: nat, d: Deal)
    requires ConfigOk(c.graph) && |x.nodes| > 0 && Spaced(c, x, clock) && clock <= now
    requires Deals(c, x, y, now, d) && !Late(x, d)
    ensures Spaced(c, y, now)
  {
    match d
    case Says(m, sample) => SaysKeepsSpaced(c, x, y, now, m, sample);
    case Loses(_, _, _) => LossKeepsSpaced(c, x, y, now, d);
    case Hears(_) =>
    case Expires =>
  }

  // ------------------------------------------------------------------ the bound

  /** A sample sent last among these. */
  lemma {:induction false} LastSample(samples: map<nat, FeedbackSample>, keys: set<nat>) returns (last: nat)
    requires keys != {} && forall k :: k in keys ==> k in samples
    ensures last in keys && forall k :: k in keys ==> samples[k].sentAt <= samples[last].sentAt
  {
    last :| last in keys;
    if keys == {last} {
      assert forall k :: k in keys ==> k == last;
    } else {
      var other := LastSample(samples, keys - {last});
      assert forall k :: k in keys ==> k == last || k in keys - {last};
      if samples[other].sentAt > samples[last].sentAt { last := other; }
    }
  }

  /** Spaced samples take up that many intervals. */
  lemma {:induction false} SpacedSpreadsOut(
      samples: map<nat, FeedbackSample>, keys: set<nat>, interval: nat, first: nat, end: nat)
    requires keys != {} && forall k :: k in keys ==> k in samples && first <= samples[k].sentAt <= end
    requires forall k, j :: k in keys && j in keys && k != j ==> Apart(interval, samples[k], samples[j])
    ensures first + RouteUpdate.Services(|keys| - 1, interval) <= end
    decreases |keys|
  {
    var last := LastSample(samples, keys);
    var rest := keys - {last};
    if rest == {} {
      assert |keys| == 1 by { assert keys == {last}; }
    } else {
      forall k | k in rest ensures samples[k].sentAt + interval <= end {
        assert Apart(interval, samples[k], samples[last]);
      }
      var some :| some in rest;
      assert end >= interval;
      SpacedSpreadsOut(samples, rest, interval, first, end - interval);
      assert |keys| == |rest| + 1;
    }
  }

  /** The most samples that are outstanding at a time. */
  function MaxOutstanding(c: Config): nat
    requires c.feedbackIntervalMs > 0
  {
    DivCeil(c.feedbackTimeoutMs, c.feedbackIntervalMs)
  }

  /** Spaced samples that are not due yet are no more than the timeout has intervals. */
  lemma FewAreNotDue(samples: map<nat, FeedbackSample>, interval: nat, timeout: nat, now: nat)
    requires interval > 0
    requires forall k :: k in samples ==> samples[k].sentAt <= now < samples[k].sentAt + timeout
    requires forall k, j :: k in samples && j in samples && k != j ==> Apart(interval, samples[k], samples[j])
    ensures |samples| <= DivCeil(timeout, interval)
  {
    assert |samples| == |samples.Keys|;
    if samples.Keys != {} {
      var k :| k in samples.Keys;
      var first := if now < timeout then 0 else now + 1 - timeout;
      SpacedSpreadsOut(samples, samples.Keys, interval, first, now);
      SpreadFits(|samples|, interval, timeout);
    }
  }

  /** Once what is due has expired, no more are outstanding than the timeout has intervals. */
  lemma ExpiredIsBounded(c: Config, x: Sender, y: Sender, now: nat)
    requires c.feedbackIntervalMs > 0 && Spaced(c, x, now) && Expired(x, y, now)
    ensures |y.outstanding| <= MaxOutstanding(c)
  {
    forall k | k in y.outstanding
      ensures y.outstanding[k].sentAt <= now < y.outstanding[k].sentAt + c.feedbackTimeoutMs
    {
      assert SampleOk(c, x, now, x.outstanding[k]);
    }
    FewAreNotDue(y.outstanding, c.feedbackIntervalMs, c.feedbackTimeoutMs, now);
  }

  lemma SpreadFits(n: nat, interval: nat, timeout: nat)
    requires n > 0 && interval > 0 && RouteUpdate.Services(n - 1, interval) < timeout
    ensures n <= DivCeil(timeout, interval)
  {
    RouteUpdate.ServicesAre(n, interval);
    assert timeout + interval - 1 >= interval * n;
    QuotientAtLeast(timeout + interval - 1, interval, n);
  }

  // ------------------------------------------------------------------ runs

  datatype Moment = Moment(now: nat, deal: Deal)

  /** The states of a sender that begins without samples, before, between and after its deals. */
  ghost predicate Run(c: Config, senders: seq<Sender>, moments: seq<Moment>) {
    && ConfigOk(c.graph) && |senders| == |moments| + 1 && senders[0].outstanding == map[]
    && (forall i, j :: 0 <= i < j < |moments| ==> moments[i].now <= moments[j].now)
    && forall i :: 0 <= i < |moments| ==> DealsAt(c, senders, moments, i)
  }

  ghost predicate DealsAt(c: Config, senders: seq<Sender>, moments: seq<Moment>, i: nat)
    requires ConfigOk(c.graph) && i < |moments| && |senders| == |moments| + 1
  {
    |senders[i].nodes| > 0 && Deals(c, senders[i], senders[i + 1], moments[i].now, moments[i].deal)
  }

  /** No sample was lost late. */
  ghost predicate NoneLate(senders: seq<Sender>, moments: seq<Moment>)
    requires |senders| == |moments| + 1
  {
    forall i :: 0 <= i < |moments| ==> !Late(senders[i], moments[i].deal)
  }

  function ClockAt(moments: seq<Moment>, n: nat): nat
    requires n <= |moments|
  {
    if n == 0 then 0 else moments[n - 1].now
  }

  lemma {:induction false} RunIsSpaced(c: Config, senders: seq<Sender>, moments: seq<Moment>, n: nat)
    requires Run(c, senders, moments) && NoneLate(senders, moments) && n <= |moments|
    ensures Spaced(c, senders[n], ClockAt(moments, n))
  {
    if n == 0 {
      assert senders[n].outstanding == map[];
    } else {
      RunIsSpaced(c, senders, moments, n - 1);
      assert DealsAt(c, senders, moments, n - 1);
      assert ClockAt(moments, n - 1) <= moments[n - 1].now;
      DealKeepsSpaced(c, senders[n - 1], senders[n], ClockAt(moments, n - 1), moments[n - 1].now, moments[n - 1].deal);
    }
  }

  /**
   In every run in which no sample is lost late, each expiry leaves at most as many samples
   outstanding as the timeout has intervals, rounded up.
   */
  lemma SamplesAreBounded(c: Config, senders: seq<Sender>, moments: seq<Moment>, n: nat)
    requires c.feedbackIntervalMs > 0 && Run(c, senders, moments) && NoneLate(senders, moments)
    requires n < |moments| && moments[n].deal.Expires?
    ensures |senders[n + 1].outstanding| <= MaxOutstanding(c)
  {
    RunIsSpaced(c, senders, moments, n);
    assert DealsAt(c, senders, moments, n);
    assert ClockAt(moments, n) <= moments[n].now;
    ExpiredIsBounded(c, senders[n], senders[n + 1], moments[n].now);
  }

  // ------------------------------------------------------------------ a run in which samples are lost late

  /** Two channels lead to the other endpoint; samples are due every millisecond and overdue after four. */
  const GRAPH: GraphConfig := [[EdgeConfig(0, 1, 0, 0), EdgeConfig(1, 1, 0, 0)], []]
  const C: Config := Config(GRAPH, 1400, 1, 0, 0, 4, 1)

  const ASKS: EndpointMessage := KcpPacket(1, [])

  lemma GraphIsOk()
    ensures ConfigOk(GRAPH) && ConfigChannels(GRAPH)
  {
  }

  lemma OneHop()
    requires ConfigOk(GRAPH)
    ensures Longest(GRAPH, 0) == 1
  {
    assert Longest(GRAPH, 1) == 0;
    assert LongestOver(GRAPH, 0, 1) == 1;
  }

  lemma ConfigIsValid()
    ensures C.Valid()
  {
    GraphIsOk();
    OneHop();
  }

  /** The packet that a sample with this number goes out in. */
  function SampleEnvelope(channel: nat, seqNo: nat): Envelope {
    EnvelopeOn([channel], Stamp(0, 0, seqNo), SealMessage(ASKS), 1)
  }

  function SampleSend(
      channel: nat, seqNo: nat): Relay.Send { Relay.Send(channel, Relay.Seal(SampleEnvelope(channel, seqNo))) }

  /** The sender once a sample is out under this number on this channel. */
  function Sampled(x: Sender, now: nat, channel: nat, seqNo: nat): Sender
    requires ConfigOk(C.graph)
  {
    x.(events := x.events + [Plan(now, C.ScheduledBytes(|SealMessage(ASKS)|), true, [EdgeId(0, channel)])],
       sends := x.sends + [SampleSend(channel, seqNo)],
       outstanding := x.outstanding[PacketKey(0, seqNo) := FeedbackSample([channel], now, now + 4)],
       nextFeedbackAt := now + 1)
  }

  lemma SampleCarries(channel: nat, seqNo: nat)
    requires channel < 2 && seqNo < U48_SPAN
    ensures Carries(C, SampleSend(channel, seqNo), [channel], Stamp(0, 0, seqNo), SealMessage(ASKS))
    ensures IsSend(SampleSend(channel, seqNo), channel, SampleEnvelope(channel, seqNo))
  {
    SealCarries(C, [channel], Stamp(0, 0, seqNo), SealMessage(ASKS), 1);
    Relay.SealOpens(SampleEnvelope(channel, seqNo));
  }

  lemma SampledIsSent(x: Sender, now: nat, channel: nat, seqNo: nat)
    requires ConfigOk(C.graph) && channel < 2 && seqNo < U48_SPAN && now < 1024
    requires |x.nodes| > 0 && !AllLocalInCooldown(x.nodes, now)
    ensures Sent(C, x, Sampled(x, now, channel, seqNo), now, Stamp(0, 0, seqNo), SealMessage(ASKS), true)
  {
    SampleCarries(channel, seqNo);
    var y, path := Sampled(x, now, channel, seqNo), [EdgeId(0, channel)];
    assert Way(C.graph, path[1..], 1, 1) && Way(C.graph, path, 0, 1);
    assert Spelled(C.graph, [channel], path);
    assert SentOver(C, x, y, now, Stamp(0, 0, seqNo), SealMessage(ASKS), true, [channel], path);
  }

  /** A sender of this configuration whose second channel works, and whose last packet had the number before `next`. */
  ghost predicate Working(x: Sender, next: nat) {
    && |x.nodes| == 2 && |x.nodes[0]| == 2 && x.nodes[0][0].channelId == 0 && x.nodes[0][1].cooldownUntil == 0
    && x.seqId == 0 && x.nextSeqNo == next < 1024
  }

  lemma SamplesNext(x: Sender, now: nat, channel: nat, next: nat) returns (y: Sender)
    requires ConfigOk(GRAPH) && Working(x, next) && next + 1 < 1024 && channel < 2 && now < 1024 && x.FeedbackDue(now)
    ensures Deals(C, x, y, now, Says(ASKS, true)) && Working(y, next + 1)
    ensures y.outstanding == x.outstanding[next := FeedbackSample([channel], now, now + 4)]
    ensures y.nextFeedbackAt == now + 1
    ensures y.sends == x.sends + [SampleSend(channel, next)]
  {
    var counted := Counted(x, 0, next);
    y := Sampled(counted, now, channel, next);
    assert Allowed(x.nodes, now, EdgeId(0, 1));
    SampledIsSent(counted, now, channel, next);
    assert C.CurrentTime(now) == 0;
    assert SentUnder(C, x, y, now, ASKS, true, 0, next);
    assert SentMessage(C, x, y, now, ASKS, true) && y == y.(nextKeepaliveAt := y.nextKeepaliveAt);
  }

  /** The first channel fails; the sample goes out again on the second. */
  lemma LosesOne(x: Sender, now: nat, next: nat, lost: nat, i: nat) returns (y: Sender)
    requires ConfigOk(GRAPH) && Working(x, next) && lost < 1024 && now < 1024
    requires lost in x.outstanding && i < |x.sends| && x.sends[i] == SampleSend(0, lost)
    ensures Deals(C, x, y, now, Loses(0, SampleEnvelope(0, lost), true)) && Working(y, next)
    ensures y.outstanding == x.outstanding[lost := FeedbackSample([1], now, now + 4)] && y.nextFeedbackAt == now + 1
    ensures x.sends <= y.sends
  {
    var e := SampleEnvelope(0, lost);
    var g := With(x.nodes, EdgeId(0, 0), RouteUpdate.Failed(x.nodes[0][0], now));
    var z := Voided(x, g, now, 0, lost);
    y := Sampled(z, now, 1, lost);
    assert Allowed(g, now, EdgeId(0, 1));
    SampledIsSent(z, now, 1, lost);
    SampleCarries(0, lost);
    assert IsSend(x.sends[i], 0, e);
    assert SendFailedAt(C, x, y, now, 0, e, true, g);
    assert (x.outstanding - {lost})[lost := FeedbackSample([1], now, now + 4)]
        == x.outstanding[lost := FeedbackSample([1], now, now + 4)];
  }

  const EDGE: Edge := Edge(0, 1, 1, 1, 0, 0, 0, 50, None, None)

  /** Four samples; the two on the first channel are lost late; three more; expiry. */
  function DealOf(i: nat): Moment {
    if i < 4 then Moment(i, Says(ASKS, true))
    else if i == 4 then Moment(3, Loses(0, SampleEnvelope(0, 0), true))
    else if i == 5 then Moment(3, Loses(0, SampleEnvelope(0, 2), true))
    else if i < 9 then Moment(i - 2, Says(ASKS, true))
    else Moment(6, Expires)
  }

  function DealsOf(): seq<Moment> { seq(10, i requires 0 <= i => DealOf(i)) }

  /** The first `n` of these deals have been made. */
  ghost predicate Made(xs: seq<Sender>, n: nat)
    requires ConfigOk(GRAPH)
  {
    && |xs| == n + 1 && xs[0].outstanding == map[]
    && forall i :: 0 <= i < n ==> MadeAt(xs, i)
  }

  ghost predicate MadeAt(xs: seq<Sender>, i: nat)
    requires ConfigOk(GRAPH) && i + 1 < |xs|
  {
    |xs[i].nodes| > 0 && Deals(C, xs[i], xs[i + 1], DealOf(i).now, DealOf(i).deal)
  }

  lemma MakesOne(xs: seq<Sender>, n: nat, y: Sender)
    requires ConfigOk(GRAPH) && Made(xs, n)
    requires |xs[n].nodes| > 0 && Deals(C, xs[n], y, DealOf(n).now, DealOf(n).deal)
    ensures Made(xs + [y], n + 1)
  {
    forall i | 0 <= i < n + 1 ensures MadeAt(xs + [y], i) {
      if i < n { assert MadeAt(xs, i); }
    }
  }

  function OnFirst(now: nat): FeedbackSample { FeedbackSample([0], now, now + 4) }

  function OnSecond(now: nat): FeedbackSample { FeedbackSample([1], now, now + 4) }

  /** One sample more. */
  lemma MakesSample(xs: seq<Sender>, n: nat, channel: nat, next: nat) returns (ys: seq<Sender>)
    requires ConfigOk(GRAPH) && Made(xs, n) && Working(xs[n], next) && channel < 2 && next < 100 && n < 9
    requires DealOf(n).deal == Says(ASKS, true) && xs[n].FeedbackDue(DealOf(n).now)
    ensures |ys| == n + 2 && Made(ys, n + 1) && xs <= ys && Working(ys[n + 1], next + 1)
    ensures var now := DealOf(n).now;
            && ys[n + 1].nextFeedbackAt == now + 1 && ys[n + 1].sends == xs[n].sends + [SampleSend(channel, next)]
            && ys[n + 1].outstanding == xs[n].outstanding[next := FeedbackSample([channel], now, now + 4)]
  {
    var y := SamplesNext(xs[n], DealOf(n).now, channel, next);
    MakesOne(xs, n, y);
    ys := xs + [y];
  }

  /** One sample is lost. */
  lemma MakesLoss(xs: seq<Sender>, n: nat, lost: nat) returns (ys: seq<Sender>)
    requires ConfigOk(GRAPH) && Made(xs, n) && Working(xs[n], 4) && n < 9 && lost < 4
    requires DealOf(n).deal == Loses(0, SampleEnvelope(0, lost), true)
    requires lost in xs[n].outstanding && |xs[n].sends| > lost && xs[n].sends[lost] == SampleSend(0, lost)
    ensures |ys| == n + 2 && Made(ys, n + 1) && xs <= ys && Working(ys[n + 1], 4)
    ensures var now := DealOf(n).now;
            && ys[n + 1].nextFeedbackAt == now + 1 && xs[n].sends <= ys[n + 1].sends
            && ys[n + 1].outstanding == xs[n].outstanding[lost := FeedbackSample([1], now, now + 4)]
  {
    var y := LosesOne(xs[n], DealOf(n).now, 4, lost, lost);
    MakesOne(xs, n, y);
    ys := xs + [y];
  }

  lemma FourSamples() returns (xs: seq<Sender>)
    requires ConfigOk(GRAPH)
    ensures Made(xs, 4) && Working(xs[4], 4)
    ensures xs[4].outstanding == map[0 := OnFirst(0), 1 := OnSecond(1), 2 := OnFirst(2), 3 := OnSecond(3)]
    ensures |xs[4].sends| == 4 && xs[4].sends[0] == SampleSend(0, 0) && xs[4].sends[2] == SampleSend(0, 2)
  {
    xs := [Sender([[EDGE, EDGE.(channelId := 1)], []], [], 0, 0, 0, 0, map[], [])];
    xs := MakesSample(xs, 0, 0, 0);
    xs := MakesSample(xs, 1, 1, 1);
    xs := MakesSample(xs, 2, 0, 2);
    xs := MakesSample(xs, 3, 1, 3);
  }

  /** The two samples on the first channel are lost late, and sent again. */
  lemma TwoLost(xs: seq<Sender>) returns (ys: seq<Sender>)
    requires ConfigOk(GRAPH) && Made(xs, 4) && Working(xs[4], 4)
    requires xs[4].outstanding == map[0 := OnFirst(0), 1 := OnSecond(1), 2 := OnFirst(2), 3 := OnSecond(3)]
    requires |xs[4].sends| == 4 && xs[4].sends[0] == SampleSend(0, 0) && xs[4].sends[2] == SampleSend(0, 2)
    ensures Made(ys, 6) && Working(ys[6], 4) && ys[6].nextFeedbackAt == 4 && Late(ys[4], DealOf(4).deal)
    ensures ys[6].outstanding == map[0 := OnSecond(3), 1 := OnSecond(1), 2 := OnSecond(3), 3 := OnSecond(3)]
  {
    ys := MakesLoss(xs, 4, 0);
    ys := MakesLoss(ys, 5, 2);
    assert ys[4].outstanding[3].sentAt > ys[4].outstanding[0].sentAt;
    assert PacketKey(0, 0) == 0;
  }

  lemma ThreeMore(xs: seq<Sender>) returns (ys: seq<Sender>)
    requires ConfigOk(GRAPH) && Made(xs, 6) && Working(xs[6], 4) && xs[6].nextFeedbackAt == 4
    requires xs[6].outstanding == map[0 := OnSecond(3), 1 := OnSecond(1), 2 := OnSecond(3), 3 := OnSecond(3)]
    ensures Made(ys, 9) && |ys[9].nodes| > 0 && ys[4] == xs[4]
    ensures ys[9].outstanding == map[0 := OnSecond(3), 1 := OnSecond(1), 2 := OnSecond(3), 3 := OnSecond(3),
                                     4 := OnSecond(4), 5 := OnSecond(5), 6 := OnSecond(6)]
  {
    ys := MakesSample(xs, 6, 1, 4);
    ys := MakesSample(ys, 7, 1, 5);
    ys := MakesSample(ys, 8, 1, 6);
  }

  lemma OneExpires(x: Sender) returns (y: Sender)
    requires x.outstanding == map[0 := OnSecond(3), 1 := OnSecond(1), 2 := OnSecond(3), 3 := OnSecond(3),
                                  4 := OnSecond(4), 5 := OnSecond(5), 6 := OnSecond(6)]
    ensures Expired(x, y, 6) && |y.outstanding| == 6
  {
    y := x.(outstanding := Unexpired(x.outstanding, 6), events := x.events + AllFailures(x.outstanding, 6));
    assert 1 in x.outstanding && !NoneDue(x.outstanding, 6);
    assert y.outstanding.Keys == {0, 2, 3, 4, 5, 6};
    assert |y.outstanding| == |y.outstanding.Keys|;
  }

  /**
   With two samples lost late six are outstanding, one more than one above the number of intervals
   in the timeout.
   */
  lemma LateLossExceedsTheBound() returns (xs: seq<Sender>)
    ensures C.Valid() && Run(C, xs, DealsOf()) && Late(xs[4], DealOf(4).deal)
    ensures |xs[10].outstanding| == 6 && MaxOutstanding(C) + 1 == 5
  {
    ConfigIsValid();
    xs := FourSamples();
    xs := TwoLost(xs);
    xs := ThreeMore(xs);
    var last := OneExpires(xs[9]);
    MakesOne(xs, 9, last);
    xs := xs + [last];
    MadeIsRun(xs);
  }

  lemma MadeIsRun(xs: seq<Sender>)
    requires ConfigOk(GRAPH) && Made(xs, 10)
    ensures Run(C, xs, DealsOf())
  {
    forall i | 0 <= i < 10 ensures DealsAt(C, xs, DealsOf(), i) {
      assert MadeAt(xs, i);
    }
  }
}
