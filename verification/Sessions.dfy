/**
 The part of the endpoint that keeps sessions: each handler updates the maps in place, and is
 proved to do what `SessionTable` says.  Handlers return the KCP packets to be sent.
 */
module Sessions {
  import opened Bytes
  import opened EndpointSpec
  import opened KcpMachine
  import opened KcpPair
  import opened KeyOrder
  import opened Options
  import opened SessionPackets
  import opened SessionRest
  import opened SessionSafety
  import opened SessionTable
  import opened SessionTrace
  import opened Wire

  type Packets = seq<seq<Segment>>

  class SessionSet {
    const config: Config
    var sessions: map<nat, Session>
    var tombstones: map<nat, nat>
    var trace: Trace
    var finished: seq<Finished>
    var nextConvId: nat

    /** The time of the latest event or poll. */
    ghost var clock: nat

    ghost function View(): Table
      reads `sessions, `tombstones, `trace, `finished
    {
      Table(sessions, tombstones, trace, finished)
    }

    /**
     Sessions are sound, every local close was graceful, the trace is lawful, and whoever is
     closing waits for the peer.
     */
    ghost predicate Valid()
      reads this
    {
      config.Valid() && TableOk(config, View(), clock) && AtRest(View())
    }

    constructor (config: Config, firstConvId: nat)
      requires config.Valid()
      ensures Valid() && this.config == config && View() == Table(map[], map[], [], []) && nextConvId == firstConvId
      ensures clock == 0
    {
      this.config := config;
      sessions, tombstones, trace, finished := map[], map[], [], [];
      nextConvId, clock := firstConvId, 0;
    }

    /** Removes a session whose closing is complete, or whose time is up. */
    method FinishClosedSession(now: nat, conv: nat)
      modifies `sessions, `tombstones, `trace, `finished
      ensures View() == FinishClosed(old(View()), now, conv)
    {
      if conv !in sessions { return; }
      var s := sessions[conv];
      var deadlineHit := s.closeDeadlineAt.Some? && now >= s.closeDeadlineAt.value;
      var done := match s.phase
        case PendingRemote => deadlineHit
        case ClosingLocal => s.WaitSnd() == 0 || deadlineHit
        case ClosingRemote => deadlineHit
        case Active => false;
      if !done { return; }
      sessions := sessions - {conv};
      if s.phase.PendingRemote? {
        trace := trace + [Timed(now, Left(conv, false))];
        return;
      }
      if s.phase.ClosingLocal? && s.pendingClose.Some? {
        finished := finished + [Finished(s, now)];
        trace := trace + [Timed(now, CloseSession(conv, s.pendingClose.value))];
      }
      tombstones := tombstones[conv := now + SESSION_TOMBSTONE_MS];
      trace := trace + [Timed(now, Left(conv, true))];
    }

    /** Gives a message to the session's KCP and flushes it. */
    method SendSessionMessage(now: nat, conv: nat, m: SessionMessage, t: Timing) returns (packets: Packets)
      requires conv in sessions && sessions[conv].node.kcp.params.Valid()
      modifies `sessions, `tombstones, `trace, `finished
      ensures View() == SendMessage(old(View()), now, conv, m, t)
      ensures packets == MessagePackets(old(sessions)[conv], m, t)
    {
      var s := sessions[conv];
      packets := NewPackets(s.node, Submits(s, m, t).node);
      sessions := sessions[conv := Submits(s, m, t)];
      FinishClosedSession(now, conv);
    }

    /** Queues the Close of a session that is closing, as soon as the window has room for it. */
    method QueueLocalClose(now: nat, conv: nat, t: Timing) returns (packets: Packets)
      requires config.Valid() && (conv in sessions ==> SessionOk(config, conv, sessions[conv]))
      modifies `sessions, `tombstones, `trace, `finished
      ensures conv in old(sessions) ==> old(sessions)[conv].node.kcp.params.Valid()
      ensures View() == QueueClose(config, old(View()), now, conv, t)
      ensures packets == ClosePackets(config, old(View()), now, conv, t) && AllFit(config.mtu, packets)
    {
      packets := [];
      if conv !in sessions { return; }
      var s := sessions[conv];
      if !s.phase.ClosingLocal? || s.closeQueued
         || (s.closeDeadlineAt.Some? && now >= s.closeDeadlineAt.value)
         || s.WaitSnd() >= config.sndWnd
      {
        return;
      }
      MessageFits(config, conv, s, Close(s.pendingClose.value), t);
      sessions := sessions[conv := s.(closeQueued := true)];
      packets := SendSessionMessage(now, conv, Close(s.pendingClose.value), t);
    }

    static lemma MessageFits(c: Config, conv: nat, s: Session, m: SessionMessage, t: Timing)
      requires c.Valid() && SessionOk(c, conv, s)
      ensures s.node.kcp.params.Valid() && AllFit(c.mtu, MessagePackets(s, m, t))
    {
      OperationsAreLogged(c.ParamsFor(conv), s, m, [], t);
      NewPacketsFit(c.ParamsFor(conv), s.node, Submits(s, m, t));
    }

    /** The shell opens a session; its id is new. */
    method SessionOpen(now: nat, t: Timing) returns (conv: nat, packets: Packets)
      requires Valid() && clock <= now
      requires nextConvId < CONV_SPAN && nextConvId !in sessions && nextConvId !in tombstones
      modifies this
      ensures Valid() && clock == now && conv == old(nextConvId) && nextConvId == conv + 1
      ensures View() == OpenLocal(config, old(View()), now, conv, t)
      ensures conv in sessions && sessions[conv].phase.Active? && sessions[conv].node.sent == [EncodeSession(Open)]
      ensures packets == NewPackets(Start(config.ParamsFor(conv)), sessions[conv].node) && AllFit(config.mtu, packets)
    {
      conv := nextConvId;
      nextConvId := nextConvId + 1;
      OpenedIs(config, View(), now, conv, t);
      OpenKeepsTable(config, View(), clock, now, conv, t);
      OpenRests(config, View(), now, conv, t);
      FirstFits(config, conv, t);
      sessions := sessions[conv := NewSession(config.ParamsFor(conv), Active)];
      trace := trace + [Timed(now, Entered(conv, true))];
      packets := SendSessionMessage(now, conv, Open, t);
      clock := now;
    }

    static lemma FirstFits(c: Config, conv: nat, t: Timing)
      requires c.Valid() && conv < CONV_SPAN
      ensures AllFit(c.mtu, MessagePackets(NewSession(c.ParamsFor(conv), Active), Open, t))
    {
      MessageFits(c, conv, NewSession(c.ParamsFor(conv), Active), Open, t);
    }

    /**
     All or nothing: the bytes are refused when their fragments would not fit the send window,
     and otherwise become one message.
     */
    method SessionWrite(now: nat, conv: nat, bytes: seq<Byte>, t: Timing) returns (blocked: bool, packets: Packets)
      requires Valid() && clock <= now
      requires conv in sessions && sessions[conv].phase.Active?
      requires sessions[conv].node.kcp.params == config.ParamsFor(conv) && config.ParamsFor(conv).Valid()
      requires Accepts(config.ParamsFor(conv), EncodeSession(Data(bytes)))
      modifies this
      ensures Valid() && clock == now && nextConvId == old(nextConvId)
      ensures var count := FragmentCount(config.ParamsFor(conv).Mss(), |EncodeSession(Data(bytes))|);
              blocked <==> old(sessions)[conv].WaitSnd() + count > config.sndWnd
      ensures blocked ==> View() == old(View()) && packets == []
      ensures !blocked ==>
        && View() == SendMessage(old(View()), now, conv, Data(bytes), t)
        && conv in sessions && sessions[conv].node.sent == old(sessions)[conv].node.sent + [EncodeSession(Data(bytes))]
        && packets == NewPackets(old(sessions)[conv].node, sessions[conv].node)
      ensures AllFit(config.mtu, packets)
    {
      packets := [];
      var s := sessions[conv];
      var count := CountFragments(1 + |bytes|, config.mtu - OVERHEAD);
      if s.WaitSnd() + count > config.sndWnd {
        TimePasses(View(), clock, now);
        clock := now;
        return true, packets;
      }
      packets := WriteData(now, conv, bytes, t);
      clock := now;
      blocked := false;
    }

    /** The bytes fit the window: they are sent, and the session stays. */
    method WriteData(now: nat, conv: nat, bytes: seq<Byte>, t: Timing) returns (packets: Packets)
      requires Valid() && clock <= now && conv in sessions && sessions[conv].phase.Active?
      requires sessions[conv].node.kcp.params == config.ParamsFor(conv) && config.ParamsFor(conv).Valid()
      requires Accepts(config.ParamsFor(conv), EncodeSession(Data(bytes)))
      requires sessions[conv].WaitSnd()
        + FragmentCount(config.ParamsFor(conv).Mss(), |EncodeSession(Data(bytes))|) <= config.sndWnd
      modifies `sessions, `tombstones, `trace, `finished
      ensures TableOk(config, View(), now) && AtRest(View())
      ensures View() == SendMessage(old(View()), now, conv, Data(bytes), t)
      ensures conv in sessions
      ensures sessions[conv].node.sent == old(sessions)[conv].node.sent + [EncodeSession(Data(bytes))]
      ensures packets == NewPackets(old(sessions)[conv].node, sessions[conv].node) && AllFit(config.mtu, packets)
    {
      WriteKeepsTable(config, View(), clock, now, conv, Data(bytes), t);
      WriteRests(View(), now, conv, Data(bytes), t);
      MessageFits(config, conv, sessions[conv], Data(bytes), t);
      packets := SendSessionMessage(now, conv, Data(bytes), t);
    }

    static lemma CloseIsKept(c: Config, tb: Table, clock: nat, now: nat, conv: nat, reason: CloseReason, t: Timing)
      requires c.Valid() && TableOk(c, tb, clock) && AtRest(tb) && clock <= now
      requires conv in tb.sessions && tb.sessions[conv].phase.Active? && tb.sessions[conv].node.kcp.params.Valid()
      ensures SessionOk(c, conv, Begun(c, tb, now, conv, reason).sessions[conv])
      ensures TableOk(c, CloseLocal(c, tb, now, conv, reason, t), now)
      ensures AtRest(CloseLocal(c, tb, now, conv, reason, t))
    {
      assert SessionOk(c, conv, tb.sessions[conv]);
      BeginKeepsTable(c, tb, clock, now, conv, reason);
      CloseRests(c, tb, now, conv, reason, t);
      CloseKeepsTable(c, tb, clock, now, conv, reason, t);
    }

    /** The shell closes an open session. */
    method SessionClose(now: nat, conv: nat, reason: CloseReason, t: Timing) returns (packets: Packets)
      requires Valid() && clock <= now
      requires conv in sessions && sessions[conv].phase.Active? && sessions[conv].node.kcp.params.Valid()
      modifies this
      ensures Valid() && clock == now && nextConvId == old(nextConvId)
      ensures View() == CloseLocal(config, old(View()), now, conv, reason, t)
      ensures packets == ClosePackets(config, Begun(config, old(View()), now, conv, reason), now, conv, t)
      ensures AllFit(config.mtu, packets)
    {
      CloseIsKept(config, View(), clock, now, conv, reason, t);
      BeginClose(now, conv, reason);
      packets := QueueLocalClose(now, conv, t);
      clock := now;
    }

    method BeginClose(now: nat, conv: nat, reason: CloseReason)
      requires conv in sessions
      modifies `sessions, `trace
      ensures View() == Begun(config, old(View()), now, conv, reason)
    {
      var s := sessions[conv];
      s := s.(phase := ClosingLocal);
      s := s.(closeDeadlineAt := Some(now + config.closeDeadlineMs));
      s := s.(pendingClose := Some(reason));
      sessions := sessions[conv := s];
      trace := trace + [Timed(now, CloseBegun(conv))];
    }

    method HandleSessionMessage(now: nat, conv: nat, m: SessionMessage)
      modifies `sessions, `trace
      ensures View() == HandleMessage(config, old(View()), now, conv, m)
    {
      if conv !in sessions { return; }
      var s := sessions[conv];
      match m {
        case Open =>
          if s.phase.PendingRemote? {
            sessions := sessions[conv := s.(phase := Active, closeDeadlineAt := None)];
            trace := trace + [Timed(now, OpenSession(conv))];
          }
        case Data(bytes) =>
          if s.phase.Active? {
            trace := trace + [Timed(now, WriteSession(conv, bytes))];
          } else if s.phase.PendingRemote? {
            sessions := sessions - {conv};
            trace := trace + [Timed(now, Left(conv, false))];
          }
        case Close(reason) =>
          if s.phase.PendingRemote? {
            sessions := sessions - {conv};
            trace := trace + [Timed(now, Left(conv, false))];
          } else if s.phase.Active? {
            sessions := sessions[conv := s.(phase := ClosingRemote,
                                            closeDeadlineAt := Some(now + config.closeDeadlineMs))];
            trace := trace + [Timed(now, CloseSession(conv, reason))];
          }
      }
    }

    /** All complete messages, in order. */
    method HandleSessionMessages(now: nat, conv: nat, messages: seq<Message>)
      requires Decodable(messages)
      modifies `sessions, `trace
      ensures View() == HandleMessages(config, old(View()), now, conv, messages, |messages|)
    {
      for i := 0 to |messages|
        invariant View() == HandleMessages(config, old(View()), now, conv, messages, i)
      {
        HandleSessionMessage(now, conv, DecodeSession(messages[i]).value);
      }
    }

    /**
     A KCP packet from the sender `peerSeq`.  What the peer sent can be decoded: it is a genuine
     endpoint.
     */
    method HandleKcpPacket(now: nat, conv: nat, peerSeq: nat, packet: seq<Segment>, t: Timing, tq: Timing)
      returns (packets: Packets)
      requires Valid() && clock <= now && conv < CONV_SPAN
      requires conv in sessions ==> sessions[conv].node.kcp.params.Valid()
      requires Decodable(PacketMessages(config, View(), now, conv, peerSeq, packet, t))
      modifies this
      ensures Valid() && clock == now && nextConvId == old(nextConvId)
      ensures View() == HandlePacket(config, old(View()), now, conv, peerSeq, packet, t, tq)
      ensures packets == AnswerPackets(config, old(View()), now, conv, peerSeq, packet, t, tq)
      ensures AllFit(config.mtu, packets)
    {
      PacketKeepsTable(config, View(), clock, now, conv, peerSeq, packet, t, tq);
      PacketRests(config, View(), now, conv, peerSeq, packet, t, tq);
      TimePasses(View(), clock, now);
      packets := Demultiplex(now, conv, peerSeq, packet, t, tq);
      clock := now;
    }

    method Demultiplex(now: nat, conv: nat, peerSeq: nat, packet: seq<Segment>, t: Timing, tq: Timing)
      returns (packets: Packets)
      requires config.Valid() && TableOk(config, View(), now) && conv < CONV_SPAN
      requires conv in sessions ==> sessions[conv].node.kcp.params.Valid()
      requires Decodable(PacketMessages(config, View(), now, conv, peerSeq, packet, t))
      modifies `sessions, `tombstones, `trace, `finished
      ensures View() == HandlePacket(config, old(View()), now, conv, peerSeq, packet, t, tq)
      ensures packets == AnswerPackets(config, old(View()), now, conv, peerSeq, packet, t, tq)
      ensures AllFit(config.mtu, packets)
    {
      packets := [];
      ghost var was := View();
      if conv in tombstones { return; }
      AdmitSession(now, conv, peerSeq);
      var s := sessions[conv];
      if s.peerSeq.Some? && s.peerSeq.value != peerSeq { return; }
      packets := Receive(now, conv, peerSeq, packet, t, tq, was);
    }

    /** An unknown id gets a session that waits, for a time, for its Open. */
    method AdmitSession(now: nat, conv: nat, peerSeq: nat)
      modifies `sessions, `trace
      ensures View() == Admitted(config, old(View()), now, conv, peerSeq)
    {
      if conv in sessions { return; }
      var s := NewSession(config.ParamsFor(conv), PendingRemote);
      s := s.(peerSeq := Some(peerSeq), closeDeadlineAt := Some(now + config.closeDeadlineMs));
      sessions := sessions[conv := s];
      trace := trace + [Timed(now, Entered(conv, false))];
    }

    method Receive(now: nat, conv: nat, peerSeq: nat, packet: seq<Segment>, t: Timing, tq: Timing, ghost was: Table)
      returns (packets: Packets)
      requires config.Valid() && conv < CONV_SPAN && conv !in was.tombstones
      requires conv in was.sessions ==> was.sessions[conv].node.kcp.params.Valid()
      requires View() == Admitted(config, was, now, conv, peerSeq) && Bound(sessions[conv], peerSeq)
      requires Decodable(PacketMessages(config, was, now, conv, peerSeq, packet, t))
      requires TableOk(config, was, now)
      modifies `sessions, `tombstones, `trace, `finished
      ensures View() == HandlePacket(config, was, now, conv, peerSeq, packet, t, tq)
      ensures packets == AnswerPackets(config, was, now, conv, peerSeq, packet, t, tq) && AllFit(config.mtu, packets)
    {
      var s := sessions[conv];
      ghost var open := View();
      AdmitKeepsTable(config, was, now, now, conv, peerSeq);
      assert SessionOk(config, conv, s);
      var messages;
      messages, packets := Read(conv, peerSeq, packet, t);
      ghost var read := View();
      ReachedKeepsSession(config, conv, s, peerSeq, packet, t);
      PutKeepsTable(config, open, now, now, conv, sessions[conv]);
      HandleSessionMessages(now, conv, messages);
      MessagesKeepTable(config, read, now, now, conv, messages, |messages|);
      if conv in sessions { assert SessionOk(config, conv, View().sessions[conv]); }
      var more := QueueLocalClose(now, conv, tq);
      AllFitTogether(config.mtu, packets, more);
      packets := packets + more;
      FinishClosedSession(now, conv);
    }

    /** Gives the packet to the session's KCP and takes out the messages it completed. */
    method Read(
        conv: nat, peerSeq: nat, packet: seq<Segment>, t: Timing) returns (messages: seq<Message>, packets: Packets)
      requires config.Valid() && conv in sessions && SessionOk(config, conv, sessions[conv])
      modifies `sessions
      ensures var s := old(sessions)[conv];
              && s.node.kcp.params.Valid()
              && sessions == old(sessions)[conv := Receives(s, packet, t).(peerSeq := Some(peerSeq))]
              && messages == NewMessages(s.node, Receives(s, packet, t).node)
              && packets == NewPackets(s.node, Receives(s, packet, t).node)
      ensures AllFit(config.mtu, packets)
    {
      var s := sessions[conv];
      var s' := Receives(s, packet, t);
      OperationsAreLogged(config.ParamsFor(conv), s, Open, packet, t);
      NewPacketsFit(config.ParamsFor(conv), s.node, s');
      packets := NewPackets(s.node, s'.node);
      messages := NewMessages(s.node, s'.node);
      sessions := sessions[conv := s'.(peerSeq := Some(peerSeq))];
    }

    // ---------------------------------------------------------------- expiry

    /** Resets every session whose sender the sequence filter has forgotten. */
    method ExpireSequences(now: nat, removed: seq<nat>)
      requires Valid() && clock <= now
      modifies this
      ensures Valid() && clock == now && nextConvId == old(nextConvId)
      ensures View() == EvictPeers(old(View()), now, removed, |removed|)
    {
      EvictPeersKeepsTable(config, View(), clock, now, removed, |removed|);
      EvictRests(View(), now, removed, |removed|);
      for i := 0 to |removed|
        invariant View() == EvictPeers(old(View()), now, removed, i)
        invariant nextConvId == old(nextConvId)
      {
        ExpireSequence(now, removed[i]);
      }
      clock := now;
    }

    method ExpireSequence(now: nat, seqId: nat)
      modifies `sessions, `tombstones, `trace
      ensures View() == EvictPeer(old(View()), now, seqId)
    {
      var convs := Ascending(set conv | conv in sessions && sessions[conv].peerSeq == Some(seqId));
      assert convs == Ascending(PeerConvs(View(), seqId));
      AscendingIs(PeerConvs(View(), seqId));
      assert forall j :: 0 <= j < |convs| ==> convs[j] in convs;
      for i := 0 to |convs|
        invariant View() == EvictAll(old(View()), now, convs, i)
        invariant forall j :: i <= j < |convs| ==> convs[j] in sessions
      {
        ResetSession(now, convs[i]);
      }
    }

    method ResetSession(now: nat, conv: nat)
      requires conv in sessions
      modifies `sessions, `tombstones, `trace
      ensures View() == Evict(old(View()), now, conv)
      ensures sessions == old(sessions) - {conv}
    {
      var s := sessions[conv];
      sessions := sessions - {conv};
      if !s.phase.PendingRemote? {
        trace := trace + [Timed(now, CloseSession(conv, Reset))];
      }
      tombstones := tombstones[conv := now + SESSION_TOMBSTONE_MS];
      trace := trace + [Timed(now, Left(conv, true))];
    }

    method ExpireTombstones(now: nat)
      requires Valid() && clock <= now
      modifies this
      ensures Valid() && clock == now && nextConvId == old(nextConvId)
      ensures View() == ForgetTombstones(old(View()), now)
    {
      ForgetKeepsTable(config, View(), clock, now);
      ForgetRests(View(), now);
      tombstones := map conv | conv in tombstones && now < tombstones[conv] :: tombstones[conv];
      clock := now;
    }

    /** Both expiries, in the order of a poll. */
    method Expire(now: nat, removed: seq<nat>)
      requires Valid() && clock <= now
      modifies this
      ensures Valid() && clock == now && nextConvId == old(nextConvId)
      ensures View() == ForgetTombstones(EvictPeers(old(View()), now, removed, |removed|), now)
    {
      ExpireSequences(now, removed);
      ExpireTombstones(now);
    }

    /** Visits every session: queues a Close that was deferred, runs KCP's timer, finishes. */
    method PollSessions(now: nat, tq: nat -> Timing, tp: nat -> Timing) returns (packets: Packets)
      requires Valid() && clock <= now
      modifies this
      ensures Valid() && clock == now && nextConvId == old(nextConvId)
      ensures View() == Visited(config, old(View()), now, tq, tp)
      ensures packets == VisitedPackets(config, old(View()), now, tq, tp) && AllFit(config.mtu, packets)
    {
      TimePasses(View(), clock, now);
      var convs := Ascending(sessions.Keys);
      AscendingIs(sessions.Keys);
      VisitsRest(config, View(), now, convs, |convs|, tq, tp);
      packets := PollEach(now, convs, tq, tp);
      clock := now;
    }

    method PollEach(now: nat, convs: seq<nat>, tq: nat -> Timing, tp: nat -> Timing) returns (packets: Packets)
      requires config.Valid() && TableOk(config, View(), now)
      requires forall conv :: conv in convs ==> conv in sessions
      requires forall i, j :: 0 <= i < j < |convs| ==> convs[i] < convs[j]
      modifies `sessions, `tombstones, `trace, `finished
      ensures TableOk(config, View(), now)
      ensures View() == PollAll(config, old(View()), now, convs, |convs|, tq, tp)
      ensures packets == PollPackets(config, old(View()), now, convs, |convs|, tq, tp) && AllFit(config.mtu, packets)
    {
      packets := [];
      for i := 0 to |convs|
        invariant TableOk(config, View(), now) && AllFit(config.mtu, packets)
        invariant View() == PollAll(config, old(View()), now, convs, i, tq, tp)
        invariant packets == PollPackets(config, old(View()), now, convs, i, tq, tp)
        invariant forall j :: i <= j < |convs| ==> convs[j] in sessions
      {
        var more := PollOne(now, convs[i], tq(convs[i]), tp(convs[i]));
        AllFitTogether(config.mtu, packets, more);
        packets := packets + more;
      }
    }

    /** The session is still there when its timer is run. */
    method PollOne(now: nat, conv: nat, tq: Timing, tp: Timing) returns (packets: Packets)
      requires config.Valid() && TableOk(config, View(), now) && conv in sessions
      modifies `sessions, `tombstones, `trace, `finished
      ensures TableOk(config, View(), now)
      ensures View() == PollStep(config, old(View()), now, conv, tq, tp)
      ensures sessions.Keys >= old(sessions).Keys - {conv}
      ensures packets == VisitPackets(config, old(View()), now, conv, tq, tp) && AllFit(config.mtu, packets)
    {
      ghost var was := View();
      PollStepKeepsTable(config, was, now, now, conv, tq, tp);
      QueueKeepsTable(config, was, now, now, conv, tq);
      assert SessionOk(config, conv, was.sessions[conv]);
      packets := QueueLocalClose(now, conv, tq);
      assert SessionOk(config, conv, View().sessions[conv]);
      var more := RunTimer(now, conv, tp);
      AllFitTogether(config.mtu, packets, more);
      packets := packets + more;
    }

    method RunTimer(now: nat, conv: nat, t: Timing) returns (packets: Packets)
      requires config.Valid() && conv in sessions && SessionOk(config, conv, sessions[conv])
      modifies `sessions, `tombstones, `trace, `finished
      ensures old(sessions)[conv].node.kcp.params.Valid()
      ensures View() == PollSession(old(View()), now, conv, t)
      ensures packets == NewPackets(old(sessions)[conv].node, Runs(old(sessions)[conv], t).node)
      ensures AllFit(config.mtu, packets)
    {
      var s := sessions[conv];
      var s' := Runs(s, t);
      OperationsAreLogged(config.ParamsFor(conv), s, Open, [], t);
      NewPacketsFit(config.ParamsFor(conv), s.node, s');
      packets := NewPackets(s.node, s'.node);
      sessions := sessions[conv := s'];
      FinishClosedSession(now, conv);
    }
  }

  /** Division rounding up counts the fragments. */
  method CountFragments(len: nat, mss: nat) returns (count: nat)
    requires len > 0 && mss > 0
    ensures count == FragmentCount(mss, len)
  {
    count := (len + mss - 1) / mss;
    FragmentCountIsDivCeil(mss, len);
  }
}
