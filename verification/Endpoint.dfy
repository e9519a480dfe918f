/**
 The endpoint: its sessions, its replay filter and its transmitter behind one interface.  The
 sessions return the KCP packets they put out; `Transmit` sends them.
 */
module Endpoint {
  import opened Bytes
  import opened Deadlines
  import opened EndpointRuns
  import opened EndpointSpec
  import KcpCodec
  import KcpMachine
  import opened KeyOrder
  import opened Options
  import Relay
  import Routing
  import RouteUpdate
  import RouteSpec
  import opened SenderSpec
  import SequenceFilter
  import SequenceLog
  import SequenceSpec
  import SessionPackets
  import opened SessionTable
  import opened Sessions
  import Transmitter
  import opened Wire

  class EndpointCore {
    const sessions: SessionSet
    const filter: SequenceFilter.Filter
    const sender: Transmitter.Transmitter

    /** Every packet that has arrived and every poll, in order. */
    ghost var heard: seq<Happening>

    /** The parts are different objects. */
    ghost predicate Apart() {
      var s: object, t: object, p: object, f: object, e: object := sessions, sender, sender.planner, filter, this;
      s != t && s != p && s != f && s != e && t != p && t != f && t != e && p != f && p != e && f != e
    }

    ghost predicate Valid()
      reads this, sessions, filter, filter.Owner.Keys, sender, sender.planner
    {
      Sound() && Remembers(filter.Model, sender.config.bootTimeMs, heard)
    }

    /** Each part is valid, and none is part of another. */
    ghost predicate Sound()
      reads sessions, filter, filter.Owner.Keys, sender, sender.planner
    {
      && Apart() && sessions !in filter.Owner && sender !in filter.Owner
      && sender.planner !in filter.Owner && this !in filter.Owner
      && sessions.Valid() && filter.Valid() && sender.Valid()
      && sessions.config.mtu <= sender.config.KcpLimit()
    }

    /** The filter's windows are what the endpoint has heard made of them. */
    static ghost predicate Remembers(ws: SequenceSpec.Windows, bootTimeMs: nat, heard: seq<Happening>) {
      ws == WindowsAfter(bootTimeMs, heard) && PollsLawful(bootTimeMs, heard)
    }

    constructor (kcp: SessionTable.Config, config: SenderSpec.Config, seqId: nat, firstConvId: nat)
      requires kcp.Valid() && config.Valid() && seqId < U48_SPAN && kcp.mtu <= config.KcpLimit()
      ensures Valid() && sessions.config == kcp && sender.config == config
      ensures sessions.View() == Table(map[], map[], [], []) && sessions.nextConvId == firstConvId
      ensures filter.Model == map[] && heard == [] && sessions.clock == 0
      ensures sender.View() == Sender(sender.planner.nodes, [], seqId, 0, 0, config.keepaliveMs, map[], [])
      ensures forall id :: RouteSpec.IsEdge(sender.planner.nodes, id) ==>
        RouteSpec.At(sender.planner.nodes, id) == Routing.RoutePlanner.NewEdge(config.graph[id.node][id.edge])
    {
      sessions := new SessionSet(kcp, firstConvId);
      filter := new SequenceFilter.Filter();
      sender := new Transmitter.Transmitter(config, seqId);
      heard := [];
    }

    // ---------------------------------------------------------------- over its life

    /** Of all that this endpoint has heard, it has dispatched no stamp twice. */
    lemma NeverDispatchedTwice()
      requires Valid() && InTime(sender.config.bootTimeMs, heard)
      ensures SequenceSpec.NoneTwice(DispatchedStamps(sender.config.bootTimeMs, heard))
    {
      NoStampDispatchedTwice(sender.config.bootTimeMs, heard);
    }

    /** And every message that was new and recent when it came has been dispatched, and no other. */
    lemma DispatchedRightly(n: nat)
      requires Valid() && n < |heard|
      ensures SequenceLog.RightlyJudged(AllWindows(sender.config.bootTimeMs, heard),
                                        AllMoments(sender.config.bootTimeMs, heard), n)
    {
      EndpointJudgesRightly(sender.config.bootTimeMs, heard, n);
    }

    /** As long as nothing else happens, something becomes due exactly when a known deadline comes. */
    lemma DeadlinesAreExact(now: nat, later: nat)
      requires Valid() && InLife(sender.config.bootTimeMs, heard, now, later)
      ensures Due(View(), later) <==> exists d :: Term(View(), now, d) && later >= d
    {
      WindowsStayYoung(View(), heard, now, later);
      DueIffDeadline(View(), now, later);
    }

    /** Everything that waits for a time. */
    ghost function View(): Timers
      reads this, sessions, filter, sender
    {
      Timers(sessions.sessions, sessions.tombstones, sender.outstanding, filter.Model,
             sender.config.keepaliveMs, sender.nextKeepaliveAt, sender.config.bootTimeMs)
    }

    // ---------------------------------------------------------------- deadlines

    /** The least of the values and `start`. */
    static method LeastOf(values: map<nat, nat>, start: nat) returns (least: nat)
      ensures least <= start && forall key :: key in values ==> least <= values[key]
      ensures least == start || exists key :: key in values && values[key] == least
    {
      least := start;
      var keys := Ascending(values.Keys);
      AscendingIs(values.Keys);
      for i := 0 to |keys|
        invariant least <= start && forall j :: 0 <= j < i ==> keys[j] in values && least <= values[keys[j]]
        invariant least == start || exists key :: key in values && values[key] == least
      {
        assert keys[i] in keys;
        if values[keys[i]] < least { least := values[keys[i]]; }
      }
      forall key | key in values ensures least <= values[key] {
        assert key in keys;
      }
    }

    /** A session with something to send wants to be polled when its KCP says so. */
    static ghost predicate KcpTerm(x: Timers, now: nat, check: nat -> nat, d: nat) {
      exists conv :: conv in x.sessions && x.sessions[conv].WaitSnd() != 0 && d == now + check(conv)
    }

    /** Some deadline of the sessions, tombstones and samples. */
    static ghost predicate MapTerm(x: Timers, now: nat, check: nat -> nat, d: nat) {
      CloseTerm(x, d) || KcpTerm(x, now, check, d) || TombstoneTerm(x, d) || FeedbackTerm(x, d)
    }

    static method SoonestOfMaps(
        sessions: map<nat, Session>, tombstones: map<nat, nat>, samples: map<nat, FeedbackSample>,
        now: nat, check: nat -> nat, ghost x: Timers)
      returns (least: nat)
      requires x.sessions == sessions && x.tombstones == tombstones && x.samples == samples
      ensures forall d: nat :: MapTerm(x, now, check, d) ==> least <= d
      ensures least == RouteSpec.NEVER || MapTerm(x, now, check, least)
    {
      var close := LeastOf(CloseDeadlines(sessions), RouteSpec.NEVER);
      var kcp := LeastOf(KcpDeadlines(sessions, now, check), close);
      var tombstone := LeastOf(tombstones, kcp);
      least := LeastOf(SampleDeadlines(samples), tombstone);
      CloseTerms(x);
      KcpTerms(x, now, check);
      SampleTerms(x);
    }

    static lemma CloseTerms(x: Timers)
      ensures forall d: nat :: CloseTerm(x, d) <==>
        exists conv :: conv in CloseDeadlines(x.sessions) && CloseDeadlines(x.sessions)[conv] == d
    {
      forall d: nat | CloseTerm(x, d)
        ensures exists conv :: conv in CloseDeadlines(x.sessions) && CloseDeadlines(x.sessions)[conv] == d
      {
        var conv :| conv in x.sessions && x.sessions[conv].closeDeadlineAt == Some(d);
        assert conv in CloseDeadlines(x.sessions);
      }
    }

    static lemma KcpTerms(x: Timers, now: nat, check: nat -> nat)
      ensures forall d: nat :: KcpTerm(x, now, check, d) <==>
        exists conv :: conv in KcpDeadlines(x.sessions, now, check) && KcpDeadlines(x.sessions, now, check)[conv] == d
    {
      forall d: nat | KcpTerm(x, now, check, d)
        ensures var deadlines := KcpDeadlines(x.sessions, now, check);
                exists conv :: conv in deadlines && deadlines[conv] == d
      {
        var conv :| conv in x.sessions && x.sessions[conv].WaitSnd() != 0 && d == now + check(conv);
        assert conv in KcpDeadlines(x.sessions, now, check);
      }
    }

    static lemma SampleTerms(x: Timers)
      ensures forall d: nat :: FeedbackTerm(x, d) <==>
        exists key :: key in SampleDeadlines(x.samples) && SampleDeadlines(x.samples)[key] == d
    {
      forall d: nat | FeedbackTerm(x, d)
        ensures exists key :: key in SampleDeadlines(x.samples) && SampleDeadlines(x.samples)[key] == d
      {
        var key :| key in x.samples && x.samples[key].deadline == d;
        assert key in SampleDeadlines(x.samples);
      }
    }

    /** The sequence filter's deadline, if it has one. */
    method SequenceDeadline(now: nat) returns (deadline: Option<nat>)
      requires Valid()
      ensures forall d: nat :: SequenceTerm(View(), now, d) <==> deadline == Some(d)
    {
      var delay := filter.NextExpiryDelayMs(sender.config.CurrentTime(now), SEQUENCE_SOFT_CAP);
      SequenceTerms(View(), now, delay);
      if delay.None? { return None; }
      return Some(SequenceFilter.ExpiryDeadline(sender.config.bootTimeMs, now, delay.value));
    }

    static lemma SequenceTerms(x: Timers, now: nat, delay: Option<nat>)
      requires SequenceFilter.ExpiryDelay(x.windows, x.CurrentTime(now), SEQUENCE_SOFT_CAP, delay)
      ensures forall d: nat :: SequenceTerm(x, now, d) <==>
        delay.Some? && d == SequenceFilter.ExpiryDeadline(x.bootTimeMs, now, delay.value)
    {
    }

    /**
     The time of the next poll: no later than any deadline, and one of them unless there is
     none.  `check` is what each session's KCP answers when it is asked.
     */
    method NextDeadline(now: nat, check: nat -> nat) returns (deadline: nat)
      requires Valid()
      ensures forall d: nat :: Term(View(), now, d) || KcpTerm(View(), now, check, d) ==> deadline <= d
      ensures deadline == RouteSpec.NEVER || Term(View(), now, deadline) || KcpTerm(View(), now, check, deadline)
    {
      var sequence := SequenceDeadline(now);
      deadline := SoonestOfMaps(sessions.sessions, sessions.tombstones, sender.outstanding, now, check, View());
      ghost var x, maps := View(), deadline;
      if sender.config.keepaliveMs != 0 && sender.nextKeepaliveAt < deadline { deadline := sender.nextKeepaliveAt; }
      if sequence.Some? && sequence.value < deadline { deadline := sequence.value; }
      SoonestIs(x, now, check, maps, sequence, deadline);
    }

    static lemma SoonestIs(x: Timers, now: nat, check: nat -> nat, maps: nat, sequence: Option<nat>, deadline: nat)
      requires forall d: nat :: MapTerm(x, now, check, d) ==> maps <= d
      requires maps == RouteSpec.NEVER || MapTerm(x, now, check, maps)
      requires forall d: nat :: SequenceTerm(x, now, d) <==> sequence == Some(d)
      requires deadline <= maps && (x.keepaliveMs != 0 ==> deadline <= x.nextKeepaliveAt)
      requires sequence.Some? ==> deadline <= sequence.value
      requires deadline == maps || (x.keepaliveMs != 0 && deadline == x.nextKeepaliveAt) || sequence == Some(deadline)
      ensures forall d: nat :: Term(x, now, d) || KcpTerm(x, now, check, d) ==> deadline <= d
      ensures deadline == RouteSpec.NEVER || Term(x, now, deadline) || KcpTerm(x, now, check, deadline)
    {
      forall d: nat | Term(x, now, d) || KcpTerm(x, now, check, d) ensures deadline <= d {
        assert MapTerm(x, now, check, d) || KeepaliveTerm(x, d) || SequenceTerm(x, now, d);
      }
      if deadline != maps {
        assert KeepaliveTerm(x, deadline) || SequenceTerm(x, now, deadline);
      } else if deadline != RouteSpec.NEVER {
        assert MapTerm(x, now, check, deadline);
      }
    }

    static function CloseDeadlines(sessions: map<nat, Session>): map<nat, nat> {
      map conv | conv in sessions && sessions[conv].closeDeadlineAt.Some? :: sessions[conv].closeDeadlineAt.value
    }

    static function KcpDeadlines(sessions: map<nat, Session>, now: nat, check: nat -> nat): map<nat, nat> {
      map conv | conv in sessions && sessions[conv].WaitSnd() != 0 :: now + check(conv)
    }

    static function SampleDeadlines(samples: map<nat, FeedbackSample>): map<nat, nat> {
      map key | key in samples :: samples[key].deadline
    }

    // ---------------------------------------------------------------- polling

    /** Sessions whose sender is forgotten are reset, and tombstones whose time has come removed. */
    method ExpireSessions(now: nat, currentTime: nat) returns (ghost removed: seq<nat>)
      requires sessions.Valid() && filter.Valid() && Apart() && sessions !in filter.Owner && sessions.clock <= now
      modifies sessions, filter`windows, filter`Model
      ensures sessions.Valid() && filter.Valid() && sessions.clock == now
      ensures SendersGivenUp(old(filter.Model), currentTime, old(sessions.View()), now, removed,
                             filter.Model, sessions.View())
    {
      var gone := filter.RemoveExpired(currentTime, SEQUENCE_SOFT_CAP);
      removed := gone;
      ghost var keys: set<object> := filter.Owner.Keys;
      label Before:
      sessions.Expire(now, gone);
      forall o | o in keys ensures o != sessions {
      }
      FilterStays@Before(keys);
    }

    /** Notes down what has happened to the filter since its windows were `ws`. */
    ghost method Hear(ws: SequenceSpec.Windows, h: Happening)
      requires Sound() && Remembers(ws, sender.config.bootTimeMs, heard)
      requires filter.Model == WindowsNext(sender.config.bootTimeMs, ws, h)
      requires h.Poll? ==>
        SequenceFilter.OldestExpired(ws, SequenceSpec.Counter(TickOf(sender.config.bootTimeMs, h)),
                                     SEQUENCE_SOFT_CAP, h.removed)
      modifies `heard
      ensures Valid() && heard == old(heard) + [h]
    {
      OneMoreHappening(sender.config.bootTimeMs, heard, h);
      heard := heard + [h];
    }

    /** Samples, senders and tombstones whose time has come are given up. */
    method GiveUp(now: nat) returns (ghost removed: seq<nat>)
      requires Sound() && sessions.clock <= now
      modifies sessions, filter`windows, filter`Model, sender`outstanding, sender.planner
      ensures Sound() && sessions.clock == now
      ensures RouteUpdate.SameSchedule(old(sender.planner.nodes), sender.planner.nodes)
      ensures Expired(old(sender.View()), sender.View(), now)
      ensures SendersGivenUp(old(filter.Model), sender.config.CurrentTime(now), old(sessions.View()), now, removed,
                             filter.Model, sessions.View())
    {
      ghost var keys: set<object> := filter.Owner.Keys;
      label Before:
      sender.ExpireFeedback(now);
      forall o | o in keys ensures o != sender && o != sender.planner {
      }
      FilterStays@Before(keys);
      removed := ExpireSessions(now, sender.config.CurrentTime(now));
    }

    /**
     Samples, senders and tombstones whose time has come are given up, and the planner is told of
     every sample that failed.
     */
    method Expire(now: nat) returns (ghost removed: seq<nat>)
      requires Valid() && sessions.clock <= now
      modifies this, sessions, filter`windows, filter`Model, sender`outstanding, sender.planner
      ensures Valid() && sessions.clock == now && heard == old(heard) + [EndpointRuns.Poll(now, removed)]
      ensures RouteUpdate.SameSchedule(old(sender.planner.nodes), sender.planner.nodes)
      ensures Expired(old(sender.View()), sender.View(), now)
      ensures SendersGivenUp(old(filter.Model), sender.config.CurrentTime(now), old(sessions.View()), now, removed,
                             filter.Model, sessions.View())
    {
      ghost var ws := filter.Model;
      removed := GiveUp(now);
      Hear(ws, EndpointRuns.Poll(now, removed));
    }

    /** The services promised once `n` more packets have been planned. */
    ghost function Promised(backlog: nat, n: nat): nat {
      backlog + RouteUpdate.Services(n, |sender.config.graph|)
    }

    /** After `n` packets there is room for one more. */
    ghost predicate RoomAfter(backlog: nat, n: nat, top: nat) { Promised(backlog, n + 1) <= top }

    /** However the expired senders are chosen, there is room for what the sessions will put out, and for one more. */
    ghost predicate RoomForPoll(now: nat, tq: nat -> Timing, tp: nat -> Timing, backlog: nat, n: nat, top: nat)
      reads sessions, filter, sender, sender.planner
    {
      && sender.CanSend(now, backlog, top) && RoomAfter(backlog, n, top)
      && forall removed, windows, left ::
           SendersGivenUp(filter.Model, sender.config.CurrentTime(now), sessions.View(), now, removed,
                          windows, left) ==>
             |VisitedPackets(sessions.config, left, now, tq, tp)| <= n
    }

    /**
     A poll: what has expired is given up, every session is visited, what they put out is sent, and
     a keep-alive if it is time.  `given` and `sent` are the sender after the first and the third.
     */
    method Poll(now: nat, tq: nat -> Timing, tp: nat -> Timing, ghost backlog: nat, ghost n: nat, ghost top: nat)
      returns (ghost removed: seq<nat>, ghost left: Table, ghost given: Sender, ghost sent: Sender)
      requires Valid() && sessions.clock <= now && RoomForPoll(now, tq, tp, backlog, n, top)
      modifies this, sessions, filter`windows, filter`Model, sender, sender.planner
      ensures Valid() && sessions.clock == now && heard == old(heard) + [EndpointRuns.Poll(now, removed)]
      ensures sender.CanSend(now, Promised(backlog, n + 1), top)
      ensures SendersGivenUp(old(filter.Model), sender.config.CurrentTime(now), old(sessions.View()), now, removed,
                             filter.Model, left)
      ensures sessions.View() == Visited(sessions.config, left, now, tq, tp)
      ensures Expired(old(sender.View()), given, now)
      ensures SentPackets(sender.config, given, sent, now, VisitedPackets(sessions.config, left, now, tq, tp))
      ensures |sent.nodes| > 0 && KeptAlive(sender.config, sent, sender.View(), now)
    {
      ghost var g := sender.planner.nodes;
      removed := Expire(now);
      left, given := sessions.View(), sender.View();
      RouteUpdate.ScheduleKeepsBacklog(g, sender.planner.nodes, now, backlog);
      sent := Serve(now, tq, tp, backlog, n, top);
    }

    /** Serves the sessions; the filter is left alone meanwhile. */
    method Serve(
        now: nat, tq: nat -> Timing, tp: nat -> Timing, ghost backlog: nat, ghost n: nat, ghost top: nat)
      returns (ghost sent: Sender)
      requires Valid() && sessions.clock <= now
      requires sender.CanSend(now, backlog, top) && RoomAfter(backlog, n, top)
      requires |VisitedPackets(sessions.config, sessions.View(), now, tq, tp)| <= n
      modifies sessions, sender, sender.planner
      ensures Valid() && sessions.clock == now && sender.CanSend(now, Promised(backlog, n + 1), top)
      ensures sessions.View() == Visited(sessions.config, old(sessions.View()), now, tq, tp)
      ensures SentPackets(sender.config, old(sender.View()), sent, now,
                          VisitedPackets(sessions.config, old(sessions.View()), now, tq, tp))
      ensures |sent.nodes| > 0 && KeptAlive(sender.config, sent, sender.View(), now)
    {
      ghost var keys: set<object> := filter.Owner.Keys;
      label Before:
      sent := VisitAndKeepAlive(now, tq, tp, backlog, n, top);
      forall o | o in keys ensures o != sessions && o != sender && o != sender.planner {
      }
      FilterStays@Before(keys);
    }

    twostate lemma FilterStays(keys: set<object>)
      requires old(filter.Valid()) && keys == old(filter.Owner.Keys) && unchanged(filter) && unchanged(keys)
      ensures filter.Valid()
    {
    }

    method VisitAndKeepAlive(
        now: nat, tq: nat -> Timing, tp: nat -> Timing, ghost backlog: nat, ghost n: nat, ghost top: nat)
      returns (ghost sent: Sender)
      requires Ready() && sessions.clock <= now
      requires sender.CanSend(now, backlog, top) && RoomAfter(backlog, n, top)
      requires |VisitedPackets(sessions.config, sessions.View(), now, tq, tp)| <= n
      modifies sessions, sender, sender.planner
      ensures Ready() && sessions.clock == now && sender.CanSend(now, Promised(backlog, n + 1), top)
      ensures sessions.View() == Visited(sessions.config, old(sessions.View()), now, tq, tp)
      ensures SentPackets(sender.config, old(sender.View()), sent, now,
                          VisitedPackets(sessions.config, old(sessions.View()), now, tq, tp))
      ensures |sent.nodes| > 0 && KeptAlive(sender.config, sent, sender.View(), now)
    {
      VisitSessions(now, tq, tp, backlog, n, top);
      sent := sender.View();
      KeepAlive(now, Promised(backlog, n), top);
    }

    /** Visits every session, and sends what they put out. */
    method VisitSessions(
        now: nat, tq: nat -> Timing, tp: nat -> Timing, ghost backlog: nat, ghost n: nat, ghost top: nat)
      requires Ready() && sessions.clock <= now
      requires sender.CanSend(now, backlog, top) && RoomAfter(backlog, n, top)
      requires |VisitedPackets(sessions.config, sessions.View(), now, tq, tp)| <= n
      modifies sessions, sender, sender.planner
      ensures Ready() && sessions.clock == now && sender.CanSend(now, Promised(backlog, n), top)
      ensures sessions.View() == Visited(sessions.config, old(sessions.View()), now, tq, tp)
      ensures SentPackets(sender.config, old(sender.View()), sender.View(), now,
                          VisitedPackets(sessions.config, old(sessions.View()), now, tq, tp))
    {
      var packets := sessions.PollSessions(now, tq, tp);
      Transmit(now, packets, backlog, n, top);
    }

    // ---------------------------------------------------------------- packets

    /** The segments of a KCP packet, all of one conversation. */
    static function Segments(packet: seq<Byte>): seq<KcpMachine.Segment>
      requires |packet| >= KcpMachine.OVERHEAD
    {
      KcpCodec.Parse(KcpCodec.HeaderConv(packet), packet, |packet|).segments
    }

    /** A peer's KCP packet: its segments can be parsed and the messages it completes decoded. */
    static ghost predicate Genuine(
        c: SessionTable.Config, tb: Table, now: nat, peerSeq: nat, packet: seq<Byte>, t: Timing) {
      && c.Valid() && |packet| >= KcpMachine.OVERHEAD
      && KcpCodec.Parse(KcpCodec.HeaderConv(packet), packet, |packet|).outcome.Ok?
      && var conv := KcpCodec.HeaderConv(packet);
         && conv < CONV_SPAN && (conv in tb.sessions ==> tb.sessions[conv].node.kcp.params.Valid())
         && Decodable(PacketMessages(c, tb, now, conv, peerSeq, Segments(packet), t))
    }

    /** What a KCP packet makes of the sessions, and the packets that it makes them put out. */
    static ghost predicate KcpHandled(
        c: SessionTable.Config, tb: Table, tb': Table, now: nat, peerSeq: nat, packet: seq<Byte>, t: Timing, tq: Timing,
        packets: Packets)
    {
      && Genuine(c, tb, now, peerSeq, packet, t)
      && var conv := KcpCodec.HeaderConv(packet);
         && tb' == HandlePacket(c, tb, now, conv, peerSeq, Segments(packet), t, tq)
         && packets == AnswerPackets(c, tb, now, conv, peerSeq, Segments(packet), t, tq)
    }

    /** What a message makes of the sessions: only a KCP packet concerns them. */
    static ghost predicate Handled(
        c: SessionTable.Config, tb: Table, tb': Table, now: nat, peerSeq: nat, m: EndpointMessage, t: Timing,
        tq: Timing,
        packets: Packets)
    {
      if m.KcpPacket? then KcpHandled(c, tb, tb', now, peerSeq, m.packet, t, tq, packets)
      else tb' == tb && packets == []
    }

    /** A message that can be handled, and makes the sessions put out at most `n` packets. */
    static ghost predicate Manageable(
        c: SessionTable.Config, tb: Table, now: nat, peerSeq: nat, m: EndpointMessage, t: Timing, tq: Timing, n: nat)
    {
      m.KcpPacket? ==>
        && Genuine(c, tb, now, peerSeq, m.packet, t)
        && |AnswerPackets(c, tb, now, KcpCodec.HeaderConv(m.packet), peerSeq, Segments(m.packet), t, tq)| <= n
    }

    /** Checks a packet's seals, its empty plan and its stamp, in this order; only a good packet leaves a trace. */
    method AcceptPacket(packet: Relay.Packet, intact: bool, currentTime: nat) returns (message: Option<EndpointMessage>)
      requires filter.Valid()
      modifies filter, filter.Owner.Keys
      ensures filter.Valid() && fresh(filter.Owner.Keys - old(filter.Owner.Keys))
      ensures message == if Counts(packet, intact, old(filter.Model), currentTime)
                         then MessageIn(packet, intact) else None
      ensures message.Some? ==>
        var e := Relay.OpenPacket(packet).envelope;
        e.seqId < U48_SPAN && e.seqNo < U48_SPAN && message.value.replyDepth < 4
      ensures filter.Model == Heard(old(filter.Model), currentTime, packet, intact)
    {
      var received := Relay.OpenPacket(packet);
      if received.Err? { return None; }
      var e := received.envelope;
      if e.routePlan != [] { return None; }
      if |e.payload| < 16 || !intact { return None; }
      message := DecodeMessage(e.payload[16..]);
      if message.None? { return None; }
      var verdict := filter.CheckAndInsert(currentTime, e.time, e.seqId, e.seqNo);
      if !verdict.Accepted? { return None; }
      EnvelopeIsCanonical(packet.content);
      MessageIsCanonicalIff(e.payload[16..]);
    }

    /** What a message makes of the sender: KCP packets are sent, a reply settles its sample. */
    static ghost predicate Dispatched(
        c: SenderSpec.Config, x: Sender, y: Sender, now: nat, m: EndpointMessage, packets: Packets)
      requires RouteSpec.ConfigOk(c.graph)
    {
      match m
      case KcpPacket(_, _) => SentPackets(c, x, y, now, packets)
      case KeepAlive(_) => y == x
      case RouteReply(_, id, no) => Settled(x, y, PacketKey(id, no))
    }

    /** The sessions and the sender, without the filter. */
    ghost predicate Ready()
      reads sessions, sender, sender.planner
    {
      Apart() && sessions.Valid() && sender.Valid() && sessions.config.mtu <= sender.config.KcpLimit()
    }

    /** A KCP packet goes to its session. */
    method ReceiveKcp(now: nat, peerSeq: nat, packet: seq<Byte>, t: Timing, tq: Timing) returns (packets: Packets)
      requires sessions.Valid() && sessions.clock <= now
      requires Genuine(sessions.config, sessions.View(), now, peerSeq, packet, t)
      modifies sessions
      ensures sessions.Valid() && sessions.clock == now && SessionPackets.AllFit(sessions.config.mtu, packets)
      ensures KcpHandled(sessions.config, old(sessions.View()), sessions.View(), now, peerSeq, packet, t, tq, packets)
    {
      packets := sessions.HandleKcpPacket(now, KcpCodec.HeaderConv(packet), peerSeq, Segments(packet), t, tq);
    }

    static lemma HandledWithin(
        c: SessionTable.Config, tb: Table, tb': Table, now: nat, peerSeq: nat, m: EndpointMessage, t: Timing,
        tq: Timing,
        packets: Packets, n: nat)
      requires m.KcpPacket? && Manageable(c, tb, now, peerSeq, m, t, tq, n)
      requires KcpHandled(c, tb, tb', now, peerSeq, m.packet, t, tq, packets)
      ensures Handled(c, tb, tb', now, peerSeq, m, t, tq, packets) && |packets| <= n
    {
    }

    /**
     What an accepted message does: a KCP packet goes to its session, a reply settles its sample.
     */
    method Dispatch(
        now: nat, peerSeq: nat, m: EndpointMessage, t: Timing, tq: Timing, ghost backlog: nat, ghost n: nat,
        ghost top: nat)
      returns (ghost packets: Packets)
      requires Ready() && sessions.clock <= now && sender.CanSend(now, backlog, top) && RoomAfter(backlog, n, top)
      requires Manageable(sessions.config, sessions.View(), now, peerSeq, m, t, tq, n)
      modifies sessions, sender, sender.planner
      ensures Ready() && sessions.clock <= now && sender.CanSend(now, Promised(backlog, n), top)
      ensures Handled(sessions.config, old(sessions.View()), sessions.View(), now, peerSeq, m, t, tq, packets)
      ensures Dispatched(sender.config, old(sender.View()), sender.View(), now, m, packets)
    {
      packets := [];
      if m.KcpPacket? {
        packets := DispatchKcp(now, peerSeq, m, t, tq, backlog, n, top);
      } else {
        RouteUpdate.MoreIsBacklogged(sender.planner.nodes, now, backlog, Promised(backlog, n));
        if m.RouteReply? {
          Settle(now, PacketKey(m.receivedSeqId, m.receivedSeqNo), Promised(backlog, n), top);
        }
      }
    }

    /** A KCP packet goes to its session, and what that puts out is sent. */
    method DispatchKcp(
        now: nat, peerSeq: nat, m: EndpointMessage, t: Timing, tq: Timing, ghost backlog: nat, ghost n: nat,
        ghost top: nat)
      returns (ghost packets: Packets)
      requires Ready() && sessions.clock <= now && sender.CanSend(now, backlog, top) && RoomAfter(backlog, n, top)
      requires m.KcpPacket?
      requires Manageable(sessions.config, sessions.View(), now, peerSeq, m, t, tq, n)
      modifies sessions, sender, sender.planner
      ensures Ready() && sessions.clock <= now && sender.CanSend(now, Promised(backlog, n), top)
      ensures Handled(sessions.config, old(sessions.View()), sessions.View(), now, peerSeq, m, t, tq, packets)
      ensures Dispatched(sender.config, old(sender.View()), sender.View(), now, m, packets)
    {
      ghost var was := sessions.View();
      var out := ReceiveKcp(now, peerSeq, m.packet, t, tq);
      packets := out;
      HandledWithin(sessions.config, was, sessions.View(), now, peerSeq, m, t, tq, packets, n);
      Transmit(now, out, backlog, n, top);
    }

    /** A reply settles its sample. */
    method Settle(now: nat, key: nat, ghost backlog: nat, ghost top: nat)
      requires sender.Valid() && sender.CanSend(now, backlog, top)
      modifies sender, sender.planner
      ensures sender.Valid() && sender.CanSend(now, backlog, top) && Settled(old(sender.View()), sender.View(), key)
    {
      ghost var g := sender.planner.nodes;
      sender.NoteReply(key);
      RouteUpdate.ScheduleKeepsBacklog(g, sender.planner.nodes, now, backlog);
    }

    /** Answers a message that asks for it, as a sample if one is due and the exchange is not too deep. */
    method Reply(now: nat, depth: nat, seqId: nat, seqNo: nat, ghost backlog: nat, ghost top: nat)
      requires sender.Valid() && sender.CanSend(now, backlog, top) && backlog + |sender.config.graph| <= top
      requires depth < 4 && seqId < U48_SPAN && seqNo < U48_SPAN
      modifies sender, sender.planner
      ensures sender.Valid() && sender.CanSend(now, backlog + |sender.config.graph|, top)
      ensures |old(sender.planner.nodes)| > 0
      ensures Answered(sender.config, old(sender.View()), sender.View(), now, depth, seqId, seqNo)
    {
      if depth == 0 {
        RouteUpdate.MoreIsBacklogged(sender.planner.nodes, now, backlog, backlog + |sender.config.graph|);
        return;
      }
      var sample := depth < 3 && now >= sender.nextFeedbackAt;
      sender.SendEndpointMessage(now, ReplyTo(depth, sample, seqId, seqNo), sample, backlog, top);
    }

    /** What a message that counts makes of the endpoint: it is dispatched, and then answered under its stamp. */
    static ghost predicate Received(
        c: SessionTable.Config, tb: Table, tb': Table, sc: SenderSpec.Config, x: Sender, y: Sender, now: nat,
        e: Envelope, m: EndpointMessage, t: Timing, tq: Timing, packets: Packets, mid: Sender)
      requires RouteSpec.ConfigOk(sc.graph)
    {
      && Handled(c, tb, tb', now, e.seqId, m, t, tq, packets)
      && Dispatched(sc, x, mid, now, m, packets)
      && e.seqId < U48_SPAN && e.seqNo < U48_SPAN && m.replyDepth < 4 && |mid.nodes| > 0
      && Answered(sc, mid, y, now, m.replyDepth, e.seqId, e.seqNo)
    }

    /** Dispatches a message, and answers it if it asks for that. */
    method Receive(
        now: nat, e: Envelope, m: EndpointMessage, t: Timing, tq: Timing, ghost backlog: nat, ghost n: nat,
        ghost top: nat)
      returns (ghost packets: Packets, ghost mid: Sender)
      requires Ready() && sessions.clock <= now && sender.CanSend(now, backlog, top) && RoomAfter(backlog, n, top)
      requires e.seqId < U48_SPAN && e.seqNo < U48_SPAN && m.replyDepth < 4
      requires Manageable(sessions.config, sessions.View(), now, e.seqId, m, t, tq, n)
      modifies sessions, sender, sender.planner
      ensures Ready() && sessions.clock <= now && sender.CanSend(now, Promised(backlog, n + 1), top)
      ensures Received(sessions.config, old(sessions.View()), sessions.View(), sender.config, old(sender.View()),
                       sender.View(), now, e, m, t, tq, packets, mid)
    {
      packets := Dispatch(now, e.seqId, m, t, tq, backlog, n, top);
      mid := sender.View();
      Reply(now, m.replyDepth, e.seqId, e.seqNo, Promised(backlog, n), top);
    }

    /** Receives a message; the filter is left alone meanwhile. */
    method ReceiveBeside(
        now: nat, e: Envelope, m: EndpointMessage, t: Timing, tq: Timing, ghost backlog: nat, ghost n: nat,
        ghost top: nat)
      returns (ghost packets: Packets, ghost mid: Sender)
      requires Valid() && sessions.clock <= now && sender.CanSend(now, backlog, top) && RoomAfter(backlog, n, top)
      requires e.seqId < U48_SPAN && e.seqNo < U48_SPAN && m.replyDepth < 4
      requires Manageable(sessions.config, sessions.View(), now, e.seqId, m, t, tq, n)
      modifies sessions, sender, sender.planner
      ensures Valid() && sessions.clock <= now && sender.CanSend(now, Promised(backlog, n + 1), top)
      ensures Received(sessions.config, old(sessions.View()), sessions.View(), sender.config, old(sender.View()),
                       sender.View(), now, e, m, t, tq, packets, mid)
    {
      ghost var keys: set<object> := filter.Owner.Keys;
      label Before:
      packets, mid := Receive(now, e, m, t, tq, backlog, n, top);
      forall o | o in keys ensures o != sessions && o != sender && o != sender.planner {
      }
      FilterStays@Before(keys);
    }

    /** A packet comes before the filter; sessions and sender are left alone meanwhile. */
    method Accept(now: nat, packet: Relay.Packet, intact: bool) returns (message: Option<EndpointMessage>)
      requires Valid()
      modifies this, filter, filter.Owner.Keys
      ensures Valid() && heard == old(heard) + [EndpointRuns.Packet(now, packet, intact)]
      ensures fresh(filter.Owner.Keys - old(filter.Owner.Keys))
      ensures filter.Model == Heard(old(filter.Model), sender.config.CurrentTime(now), packet, intact)
      ensures message == if Counts(packet, intact, old(filter.Model), sender.config.CurrentTime(now))
                         then MessageIn(packet, intact) else None
      ensures message.Some? ==>
        var e := Relay.OpenPacket(packet).envelope;
        e.seqId < U48_SPAN && e.seqNo < U48_SPAN && message.value.replyDepth < 4
    {
      ghost var ws := filter.Model;
      message := AcceptPacket(packet, intact, sender.config.CurrentTime(now));
      Hear(ws, EndpointRuns.Packet(now, packet, intact));
    }

    /**
     A transport packet has arrived.  Only one with intact seals, an empty plan and a new stamp
     leaves a trace.
     */
    method HandleTransportPacket(
        now: nat, packet: Relay.Packet, intact: bool, t: Timing, tq: Timing, ghost backlog: nat, ghost n: nat,
        ghost top: nat)
      returns (ghost packets: Packets, ghost mid: Sender)
      requires Valid() && sessions.clock <= now && sender.CanSend(now, backlog, top) && RoomAfter(backlog, n, top)
      requires Counts(packet, intact, filter.Model, sender.config.CurrentTime(now)) ==>
        Manageable(sessions.config, sessions.View(), now, Relay.OpenPacket(packet).envelope.seqId,
                   MessageIn(packet, intact).value, t, tq, n)
      modifies this, sessions, filter, filter.Owner.Keys, sender, sender.planner
      ensures Valid() && sessions.clock <= now && sender.CanSend(now, Promised(backlog, n + 1), top)
      ensures heard == old(heard) + [EndpointRuns.Packet(now, packet, intact)]
      ensures filter.Model == Heard(old(filter.Model), sender.config.CurrentTime(now), packet, intact)
      ensures if Counts(packet, intact, old(filter.Model), sender.config.CurrentTime(now))
              then
                Received(sessions.config, old(sessions.View()), sessions.View(), sender.config, old(sender.View()),
                         sender.View(), now, Relay.OpenPacket(packet).envelope, MessageIn(packet, intact).value, t, tq,
                         packets, mid)
              else sessions.View() == old(sessions.View()) && sender.View() == old(sender.View())
    {
      packets, mid := [], sender.View();
      var message := Accept(now, packet, intact);
      if message.None? {
        RouteUpdate.MoreIsBacklogged(sender.planner.nodes, now, backlog, Promised(backlog, n + 1));
        return;
      }
      packets, mid := ReceiveBeside(now, Relay.OpenPacket(packet).envelope, message.value, t, tq, backlog, n, top);
    }

    // ---------------------------------------------------------------- sending

    /** The packets that sessions put out are sent, in their order. */
    static ghost predicate SentPackets(c: SenderSpec.Config, x: Sender, y: Sender, now: nat, packets: Packets)
      requires RouteSpec.ConfigOk(c.graph)
    {
      SentKcp(c, x, y, now, KcpCodec.EncodePackets(packets), |packets|)
    }

    /** Sends what the sessions put out. */
    method Transmit(now: nat, packets: Packets, ghost backlog: nat, ghost n: nat, ghost top: nat)
      requires sender.Valid() && sender.CanSend(now, backlog, top) && |packets| <= n && RoomAfter(backlog, n, top)
      requires SessionPackets.AllFit(sessions.config.mtu, packets) && sessions.config.mtu <= sender.config.KcpLimit()
      modifies sender, sender.planner
      ensures sender.Valid() && sender.CanSend(now, Promised(backlog, n), top) && |old(sender.planner.nodes)| > 0
      ensures SentPackets(sender.config, old(sender.View()), sender.View(), now, packets)
      ensures AllOrNone(sender.config, old(sender.View()), sender.View(), now, KcpCodec.EncodePackets(packets),
                        |packets|)
    {
      ghost var x := sender.View();
      RouteUpdate.FewerServices(n, |packets|, |sender.config.graph|);
      sender.SendKcpPackets(now, KcpCodec.EncodePackets(packets), backlog, top);
      RouteUpdate.MoreIsBacklogged(sender.planner.nodes, now, Promised(backlog, |packets|), Promised(backlog, n));
      KcpSendsAre(sender.config, x, sender.View(), now, KcpCodec.EncodePackets(packets), |packets|);
    }

    /** Ends a poll: a keep-alive, if nothing has been sent for long enough. */
    method KeepAlive(now: nat, ghost backlog: nat, ghost top: nat)
      requires sender.Valid() && sender.CanSend(now, backlog, top) && backlog + |sender.config.graph| <= top
      modifies sender, sender.planner
      ensures sender.Valid() && sender.CanSend(now, backlog + |sender.config.graph|, top)
      ensures |old(sender.planner.nodes)| > 0
      ensures KeptAlive(sender.config, old(sender.View()), sender.View(), now)
    {
      if sender.config.keepaliveMs != 0 && now >= sender.nextKeepaliveAt {
        ghost var x := sender.View();
        var sample := now >= sender.nextFeedbackAt;
        sender.SendEndpointMessage(now, KeepAliveMessage(sample), sample, backlog, top);
        ghost var z := sender.View();
        sender.nextKeepaliveAt := now + sender.config.keepaliveMs;
        assert SentMessage(sender.config, x, z, now, KeepAliveMessage(sample), sample);
        assert sender.View() == z.(nextKeepaliveAt := now + sender.config.keepaliveMs);
      } else {
        RouteUpdate.MoreIsBacklogged(sender.planner.nodes, now, backlog, backlog + |sender.config.graph|);
      }
    }
  }
}
